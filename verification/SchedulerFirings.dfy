/** Which steps fire, in every run: the firings so far decide alone, and the counts, the captured
    values and the presses are theirs. */
module SchedulerFirings {
  import opened Bytes
  import opened StepScheduler
  import opened SchedulerRuns
  import opened SchedulerPrompts

  /** A step's trigger was found on a line, and in it the text it captures. */
  datatype Firing = Firing(line: nat, step: nat, text: string)

  // ----- what the firings say

  function Count(log: seq<Firing>, step: nat): nat
  {
    if log == [] then 0 else Count(log[..|log| - 1], step) + if log[|log| - 1].step == step then 1 else 0
  }

  ghost predicate StepsOf(steps: seq<Step>, log: seq<Firing>)
  {
    forall p | 0 <= p < |log| :: log[p].step < |steps|
  }

  /** Firing `p` captured the value of `name`. */
  ghost predicate Captures(steps: seq<Step>, log: seq<Firing>, p: nat, name: string)
    requires StepsOf(steps, log)
  {
    p < |log| && steps[log[p].step].capture == Some(name)
  }

  /** And no later one did. */
  ghost predicate CapturesLast(steps: seq<Step>, log: seq<Firing>, p: nat, name: string)
    requires StepsOf(steps, log)
  {
    Captures(steps, log, p, name) && forall q | p < q < |log| :: !Captures(steps, log, q, name)
  }

  /** The captured values: each name's is the text of the last firing that captured it. */
  ghost predicate Known(steps: seq<Step>, log: seq<Firing>, captures: map<string, string>)
    requires StepsOf(steps, log)
  {
    && (forall name | name in captures :: exists p :: Captures(steps, log, p, name))
    && (forall p: nat, name | CapturesLast(steps, log, p, name) :: name in captures && captures[name] == log[p].text)
  }

  /** A step may fire: it is below its cap, the waiting step before it has fired if it waits
      itself, and every name in its trigger has been captured. */
  ghost predicate Eligible(steps: seq<Step>, log: seq<Firing>, i: nat)
    requires i < |steps| && StepsOf(steps, log)
  {
    && (steps[i].times == 0 || Count(log, i) < steps[i].times)
    && (forall j | 0 <= j < i && steps[i].awaitShell && steps[j].awaitShell && (forall m | j < m < i :: !steps[m].awaitShell) ::
          Count(log, j) > 0)
    && (forall name | name in steps[i].wanted :: exists p :: Captures(steps, log, p, name))
  }

  // ----- the firings of a run

  /** The firing of one step on a line, if there is one. */
  function Own(steps: seq<Step>, s: State, index: nat, line: Line, at: nat): seq<Firing>
    requires index < |steps| == |s.matches|
  {
    var found := line.find(index, s.captures);
    if TryStep(steps, s, index, line).matches[index] == s.matches[index] then []
    else [Firing(at, index, if found.Some? then found.value else "")]
  }

  /** Those that a line's steps from `index` on show by their counts. */
  function LogSteps(steps: seq<Step>, s: State, index: nat, line: Line, at: nat): seq<Firing>
    requires index <= |steps| == |s.matches|
    decreases |steps| - index
  {
    if index == |steps| then []
    else
      Own(steps, s, index, line, at) + LogSteps(steps, TryStep(steps, s, index, line), index + 1, line, at)
  }

  function Log(steps: seq<Step>, lines: seq<Line>): seq<Firing>
  {
    if lines == [] then []
    else
      var n := |lines| - 1;
      Log(steps, lines[..n]) + LogSteps(steps, AfterReady(Run(steps, lines[..n]), lines[n]), 0, lines[n], n)
  }

  predicate Earlier(f: Firing, line: nat, step: nat) { f.line < line || (f.line == line && f.step < step) }

  /** The firings before a step was considered on a line. */
  function Before(log: seq<Firing>, line: nat, step: nat): (h: seq<Firing>)
    ensures h <= log
  {
    if log == [] || Earlier(log[|log| - 1], line, step) then log else Before(log[..|log| - 1], line, step)
  }

  // ----- a state and its firings agree

  ghost predicate Agrees(steps: seq<Step>, s: State, log: seq<Firing>)
  {
    && StepsOf(steps, log) && |s.matches| == |steps| && Known(steps, log, s.captures)
    && forall i | 0 <= i < |steps| :: s.matches[i] == Count(log, i)
  }

  lemma CapturesAppend(steps: seq<Step>, log: seq<Firing>, f: Firing)
    requires StepsOf(steps, log) && f.step < |steps|
    ensures StepsOf(steps, log + [f])
    ensures forall p: nat, name :: Captures(steps, log + [f], p, name) <==>
              if p == |log| then steps[f.step].capture == Some(name) else Captures(steps, log, p, name)
  {
  }

  lemma LastAppend(steps: seq<Step>, log: seq<Firing>, f: Firing, p: nat, name: string)
    requires StepsOf(steps, log) && f.step < |steps| && StepsOf(steps, log + [f]) && CapturesLast(steps, log + [f], p, name)
    ensures p < |log + [f]|
    ensures if steps[f.step].capture == Some(name) then p == |log| else p < |log| && CapturesLast(steps, log, p, name)
  {
    CapturesAppend(steps, log, f);
    var more := log + [f];
    assert p < |more|;
    if p < |log| {
      assert !Captures(steps, more, |log|, name);
      forall q | p < q < |log| ensures !Captures(steps, log, q, name) {
        assert !Captures(steps, more, q, name);
      }
    }
  }

  lemma KnownAppend(steps: seq<Step>, log: seq<Firing>, captures: map<string, string>, f: Firing)
    requires StepsOf(steps, log) && f.step < |steps| && Known(steps, log, captures)
    ensures StepsOf(steps, log + [f])
    ensures Known(steps, log + [f], if steps[f.step].capture.Some? then captures[steps[f.step].capture.value := f.text] else captures)
  {
    hide Captures, CapturesLast;
    CapturesAppend(steps, log, f);
    var more := log + [f];
    var after := if steps[f.step].capture.Some? then captures[steps[f.step].capture.value := f.text] else captures;
    forall name | name in after ensures exists p :: Captures(steps, more, p, name) {
      if steps[f.step].capture == Some(name) {
        assert Captures(steps, more, |log|, name);
      } else {
        var p :| Captures(steps, log, p, name);
        WithinLog(steps, log, p, name);
        assert Captures(steps, more, p, name);
      }
    }
    forall p: nat, name | CapturesLast(steps, more, p, name) ensures p < |more| && name in after && after[name] == more[p].text {
      LastAppend(steps, log, f, p, name);
    }
  }

  lemma WithinLog(steps: seq<Step>, log: seq<Firing>, p: nat, name: string)
    requires StepsOf(steps, log) && Captures(steps, log, p, name)
    ensures p < |log|
  {
  }

  /** The names captured are those that firings captured. */
  lemma KnownNames(steps: seq<Step>, log: seq<Firing>, captures: map<string, string>, name: string)
    requires StepsOf(steps, log) && Known(steps, log, captures)
    ensures name in captures <==> exists p :: Captures(steps, log, p, name)
  {
    if p :| Captures(steps, log, p, name) {
      var last := LastCapture(steps, log, p, name);
    }
  }

  lemma {:induction false} LastCapture(steps: seq<Step>, log: seq<Firing>, p: nat, name: string) returns (last: nat)
    requires StepsOf(steps, log) && Captures(steps, log, p, name)
    ensures CapturesLast(steps, log, last, name)
    decreases |log| - p
  {
    if q :| p < q < |log| && Captures(steps, log, q, name) {
      last := LastCapture(steps, log, q, name);
    } else {
      last := p;
    }
  }

  /** Two maps known from the same firings are the same. */
  lemma KnownOnce(steps: seq<Step>, log: seq<Firing>, a: map<string, string>, b: map<string, string>)
    requires StepsOf(steps, log) && Known(steps, log, a) && Known(steps, log, b)
    ensures a == b
  {
    forall name ensures name in a <==> name in b {
      KnownNames(steps, log, a, name);
      KnownNames(steps, log, b, name);
    }
    forall name | name in a ensures a[name] == b[name] {
      var p :| Captures(steps, log, p, name);
      var last := LastCapture(steps, log, p, name);
    }
  }

  /** The guard of a step is its eligibility. */
  lemma GuardIs(steps: seq<Step>, s: State, log: seq<Firing>, i: nat)
    requires Agrees(steps, s, log) && i < |steps|
    ensures MayFire(steps, s, i) <==> Eligible(steps, log, i)
  {
    hide Known;
    forall name ensures name in s.captures <==> exists p :: Captures(steps, log, p, name) {
      KnownNames(steps, log, s.captures, name);
    }
    var prior := Prior(steps, i);
    if steps[i].awaitShell && prior.Some? {
      assert forall m | prior.value < m < i :: !steps[m].awaitShell;
    }
  }

  lemma CountAppend(log: seq<Firing>, f: Firing, i: nat)
    ensures Count(log + [f], i) == Count(log, i) + if f.step == i then 1 else 0
  {
    assert (log + [f])[..|log|] == log;
  }

  /** One step on one line: it fires exactly when it is eligible and its trigger is found. */
  lemma StepFires(steps: seq<Step>, s: State, log: seq<Firing>, i: nat, line: Line, at: nat)
    requires Agrees(steps, s, log) && i < |steps|
    ensures var r := TryStep(steps, s, i, line); var found := line.find(i, s.captures);
            && (r.matches[i] != s.matches[i] <==> Eligible(steps, log, i) && found.Some?)
            && (if r.matches[i] != s.matches[i] then found.Some? && Agrees(steps, r, log + [Firing(at, i, found.value)])
                else Agrees(steps, r, log))
  {
    hide Eligible, Known, MayFire;
    GuardIs(steps, s, log, i);
    var r, found := TryStep(steps, s, i, line), line.find(i, s.captures);
    if MayFire(steps, s, i) && found.Some? {
      var f := Firing(at, i, found.value);
      KnownAppend(steps, log, s.captures, f);
      assert r.matches == s.matches[i := s.matches[i] + 1];
      forall j | 0 <= j < |steps| ensures r.matches[j] == Count(log + [f], j) {
        CountAppend(log, f, j);
      }
    }
  }

  // ----- a whole line

  /** The step's trigger finds `text` on the line, the step being eligible, both by the firings
      before. */
  ghost predicate Fires(steps: seq<Step>, log: seq<Firing>, line: Line, i: nat, text: string)
    requires i < |steps| && StepsOf(steps, log)
  {
    Eligible(steps, log, i) && exists captures :: Known(steps, log, captures) && line.find(i, captures) == Some(text)
  }

  ghost predicate AllEarlier(log: seq<Firing>, line: nat, step: nat)
  {
    forall p | 0 <= p < |log| :: Earlier(log[p], line, step)
  }

  ghost predicate NoneEarlier(log: seq<Firing>, line: nat, step: nat)
  {
    forall p | 0 <= p < |log| :: !Earlier(log[p], line, step)
  }

  lemma {:induction false} BeforeIs(a: seq<Firing>, b: seq<Firing>, line: nat, step: nat)
    requires AllEarlier(a, line, step) && NoneEarlier(b, line, step)
    ensures Before(a + b, line, step) == a
    decreases |b|
  {
    if b == [] {
      assert a + b == a;
    } else {
      assert (a + b)[..|a + b| - 1] == a + b[..|b| - 1];
      BeforeIs(a, b[..|b| - 1], line, step);
    }
  }

  /** Firings not earlier do not count. */
  lemma {:induction false} BeforeDrops(a: seq<Firing>, b: seq<Firing>, line: nat, step: nat)
    requires NoneEarlier(b, line, step)
    ensures Before(a + b, line, step) == Before(a, line, step)
    decreases |b|
  {
    if b == [] {
      assert a + b == a;
    } else {
      assert (a + b)[..|a + b| - 1] == a + b[..|b| - 1];
      BeforeDrops(a, b[..|b| - 1], line, step);
    }
  }

  /** The firings of the steps from `from` on, on line `at`, are those that the rule gives. */
  ghost predicate Explained(steps: seq<Step>, log: seq<Firing>, line: Line, at: nat, from: nat)
    requires StepsOf(steps, log)
  {
    forall i, text | from <= i < |steps| ::
      Firing(at, i, text) in log <==> Fires(steps, Before(log, at, i), line, i, text)
  }

  lemma {:induction false} LogStepsAre(steps: seq<Step>, s: State, index: nat, line: Line, at: nat)
    requires index <= |steps| == |s.matches|
    ensures forall f | f in LogSteps(steps, s, index, line, at) :: f.line == at && index <= f.step < |steps|
    decreases |steps| - index
  {
    hide TryStep;
    if index < |steps| {
      LogStepsAre(steps, TryStep(steps, s, index, line), index + 1, line, at);
    }
  }

  lemma FiresIs(steps: seq<Step>, s: State, log: seq<Firing>, line: Line, i: nat, text: string)
    requires Agrees(steps, s, log) && i < |steps|
    ensures Fires(steps, log, line, i, text) <==> Eligible(steps, log, i) && line.find(i, s.captures) == Some(text)
  {
    hide Eligible, Known;
    if Fires(steps, log, line, i, text) {
      var captures :| Known(steps, log, captures) && line.find(i, captures) == Some(text);
      KnownOnce(steps, log, captures, s.captures);
    }
  }

  lemma {:induction false} LineExplained(steps: seq<Step>, s: State, log: seq<Firing>, index: nat, line: Line, at: nat)
    requires index <= |steps| && Agrees(steps, s, log) && AllEarlier(log, at, index)
    ensures var all := log + LogSteps(steps, s, index, line, at);
            && Agrees(steps, TrySteps(steps, s, index, line), all) && AllEarlier(all, at + 1, 0)
            && Explained(steps, all, line, at, index)
    decreases |steps| - index
  {
    hide Agrees, TryStep, Fires, Eligible, Before, Own, Explained, AllEarlier, StepsOf;
    AgreesParts(steps, s, log);
    if index == |steps| {
      assert log + LogSteps(steps, s, index, line, at) == log;
      LineEnds(steps, log, line, at);
    } else {
      var r, own := TryStep(steps, s, index, line), Own(steps, s, index, line, at);
      OwnStep(steps, s, log, index, line, at);
      LineExplained(steps, r, log + own, index + 1, line, at);
      var rest := LogSteps(steps, r, index + 1, line, at);
      assert (log + own) + rest == log + (own + rest);
      AgreesParts(steps, TrySteps(steps, s, index, line), log + (own + rest));
      AgreesParts(steps, r, log + own);
      LogStepsAre(steps, r, index + 1, line, at);
      OwnExplained(steps, s, log, own, rest, index, line, at);
      ExplainedFrom(steps, log + (own + rest), line, at, index);
    }
  }

  lemma LineEnds(steps: seq<Step>, log: seq<Firing>, line: Line, at: nat)
    requires StepsOf(steps, log) && AllEarlier(log, at, |steps|)
    ensures AllEarlier(log, at + 1, 0) && Explained(steps, log, line, at, |steps|)
  {
  }

  lemma ExplainedFrom(steps: seq<Step>, log: seq<Firing>, line: Line, at: nat, index: nat)
    requires index < |steps| && StepsOf(steps, log) && Explained(steps, log, line, at, index + 1)
    requires forall text :: Firing(at, index, text) in log <==> Fires(steps, Before(log, at, index), line, index, text)
    ensures Explained(steps, log, line, at, index)
  {
    hide Fires, Before, StepsOf;
  }

  lemma OwnStep(steps: seq<Step>, s: State, log: seq<Firing>, index: nat, line: Line, at: nat)
    requires index < |steps| && Agrees(steps, s, log) && AllEarlier(log, at, index)
    ensures var own, found := Own(steps, s, index, line, at), line.find(index, s.captures);
            && Agrees(steps, TryStep(steps, s, index, line), log + own) && AllEarlier(log + own, at, index + 1)
            && own == if Eligible(steps, log, index) && found.Some? then [Firing(at, index, found.value)] else []
  {
    hide Agrees, TryStep, Eligible;
    AgreesParts(steps, s, log);
    StepFires(steps, s, log, index, line, at);
    assert log + [] == log;
  }

  lemma OwnExplained(steps: seq<Step>, s: State, log: seq<Firing>, own: seq<Firing>, rest: seq<Firing>, index: nat, line: Line, at: nat)
    requires index < |steps| && Agrees(steps, s, log) && AllEarlier(log, at, index) && StepsOf(steps, log + (own + rest))
    requires forall f | f in rest :: f.line == at && index < f.step
    requires var found := line.find(index, s.captures);
             own == if Eligible(steps, log, index) && found.Some? then [Firing(at, index, found.value)] else []
    ensures forall text :: Firing(at, index, text) in log + (own + rest) <==>
                           Fires(steps, Before(log + (own + rest), at, index), line, index, text)
  {
    hide Agrees, Fires, Eligible, Before;
    var all := log + (own + rest);
    BeforeIs(log, own + rest, at, index);
    AgreesParts(steps, s, log);
    forall text ensures Firing(at, index, text) in all <==> Fires(steps, Before(all, at, index), line, index, text) {
      FiresIs(steps, s, log, line, index, text);
      assert Firing(at, index, text) !in log && Firing(at, index, text) !in rest;
    }
  }

  lemma AgreesParts(steps: seq<Step>, s: State, log: seq<Firing>)
    requires Agrees(steps, s, log)
    ensures StepsOf(steps, log) && |s.matches| == |steps|
  {
  }

  // ----- a whole run

  ghost predicate Ordered(log: seq<Firing>)
  {
    forall p, q | 0 <= p < q < |log| :: Earlier(log[p], log[q].line, log[q].step)
  }

  lemma {:induction false} LogStepsOrdered(steps: seq<Step>, s: State, index: nat, line: Line, at: nat)
    requires index <= |steps| == |s.matches|
    ensures Ordered(LogSteps(steps, s, index, line, at))
    decreases |steps| - index
  {
    hide TryStep;
    if index < |steps| {
      var r := TryStep(steps, s, index, line);
      LogStepsOrdered(steps, r, index + 1, line, at);
      LogStepsAre(steps, r, index + 1, line, at);
    }
  }

  /** Every run: the counts are the firings', a name's value is the text of the last firing that
      captured it, firings come in the order of lines and steps, and a step fires on a line exactly
      when it is below its cap, its predecessor has fired, its names are captured and its trigger is
      found with them. */
  lemma {:induction false} FiringsExact(steps: seq<Step>, lines: seq<Line>)
    ensures var log := Log(steps, lines);
            && Agrees(steps, Run(steps, lines), log) && Ordered(log) && AllEarlier(log, |lines|, 0)
            && forall t | 0 <= t < |lines| :: Explained(steps, log, lines[t], t, 0)
  {
    hide Agrees, OnReady, TrySteps, LogSteps, Explained;
    if lines == [] {
      NoFirings(steps);
    } else {
      var n := |lines| - 1;
      var s, line, log := Run(steps, lines[..n]), lines[n], Log(steps, lines[..n]);
      FiringsExact(steps, lines[..n]);
      AgreesParts(steps, s, log);
      ReadyAgrees(steps, s, log, line);
      var first := AfterReady(s, line);
      LineExplained(steps, first, log, 0, line, n);
      var g := LogSteps(steps, first, 0, line, n);
      LogStepsAre(steps, first, 0, line, n);
      LogStepsOrdered(steps, first, 0, line, n);
      AgreesParts(steps, Run(steps, lines), log + g);
      forall t | 0 <= t < n ensures Explained(steps, log + g, lines[t], t, 0) {
        assert lines[..n][t] == lines[t];
        LaterLines(steps, log, g, lines[t], t);
      }
    }
  }

  lemma NoFirings(steps: seq<Step>)
    ensures Agrees(steps, Start(steps), [])
  {
    assert forall p: nat, name :: !Captures(steps, [], p, name);
  }

  /** A readiness line fires nothing. */
  lemma ReadyAgrees(steps: seq<Step>, s: State, log: seq<Firing>, line: Line)
    requires Agrees(steps, s, log)
    ensures Agrees(steps, AfterReady(s, line), log)
  {
    hide Known, Count, Kept, Let;
    assert AfterReady(s, line).matches == s.matches && AfterReady(s, line).captures == s.captures;
  }

  lemma LaterLines(steps: seq<Step>, log: seq<Firing>, g: seq<Firing>, line: Line, t: nat)
    requires StepsOf(steps, log) && StepsOf(steps, log + g) && Explained(steps, log, line, t, 0)
    requires forall f | f in g :: f.line > t
    ensures Explained(steps, log + g, line, t, 0)
  {
    hide Fires;
    forall i, text | 0 <= i < |steps|
      ensures Firing(t, i, text) in log + g <==> Fires(steps, Before(log + g, t, i), line, i, text)
    {
      BeforeDrops(log, g, t, i);
    }
  }

  // ----- presses

  /** A press into the shell was handed over since the last readiness line of any shell. */
  ghost predicate JustTyped(s: State, shell: string)
  {
    exists k | 0 <= k < |s.sent| :: Into(s.sent[k], shell) && s.sent[k].gen == |s.ready|
  }

  /** What a firing does with its keys, by what was sent before: without a gate they go out; held
      when the shell was just typed into; into the shell at once otherwise. */
  lemma PressExact(steps: seq<Step>, s: State, i: nat, line: Line)
    requires i < |steps| == |s.matches| && Noted(s) && Typed(s)
    ensures var r := TryStep(steps, s, i, line);
            var shell := if "shell" in r.captures then r.captures["shell"] else "";
            && r.ready == s.ready
            && (if r.matches[i] == s.matches[i] || !steps[i].press then r.sent == s.sent && r.pending == s.pending
                else if !steps[i].awaitShell || shell == "" then r.sent == s.sent + [Free(i)] && r.pending == s.pending
                else if JustTyped(s, shell) then r.sent == s.sent && r.pending == s.pending + [Held(i, shell, |s.ready|)]
                else r.sent == s.sent + [Direct(i, shell, |s.ready|)] && r.pending == s.pending)
  {
    hide MayFire;
    var r := TryStep(steps, s, i, line);
    var shell := if "shell" in r.captures then r.captures["shell"] else "";
    assert JustTyped(s, shell) <==> shell in s.typed && s.typed[shell] == |s.ready|;
  }

  /** The places in a list of held keys, in order, of those that a readiness line takes out, or of
      those it leaves. */
  ghost predicate Places(pending: seq<Held>, shell: string, gen: nat, out: bool, at: seq<nat>)
  {
    && (forall a | 0 <= a < |at| :: at[a] < |pending|) && (forall a, b | 0 <= a < b < |at| :: at[a] < at[b])
    && (forall i | 0 <= i < |pending| :: i in at <==> out == (pending[i].shell == shell && pending[i].gen < gen))
  }

  lemma PlacesNext(pending: seq<Held>, shell: string, gen: nat, out: bool, at: seq<nat>)
    requires pending != [] && Places(pending[..|pending| - 1], shell, gen, out, at)
    ensures var n := |pending| - 1; var more := out == (pending[n].shell == shell && pending[n].gen < gen);
            Places(pending, shell, gen, out, if more then at + [n] else at)
  {
    var n := |pending| - 1;
    assert forall i | 0 <= i < n :: pending[..n][i] == pending[i];
    assert n !in at;
  }

  /** A readiness line hands over, in the order they were held, exactly the keys held for its shell
      before it. */
  lemma {:induction false} ReleasedExact(pending: seq<Held>, shell: string, gen: nat) returns (at: seq<nat>)
    ensures Places(pending, shell, gen, true, at) && |Let(pending, shell, gen)| == |at|
    ensures forall a | 0 <= a < |at| :: at[a] < |pending| &&
              Let(pending, shell, gen)[a] == Released(pending[at[a]].step, shell, gen, pending[at[a]].gen)
  {
    hide Places;
    if pending == [] {
      at := [];
      assert Places(pending, shell, gen, true, at) by { NoPlaces(shell, gen, true); }
    } else {
      var n := |pending| - 1;
      at := ReleasedExact(pending[..n], shell, gen);
      PlacesNext(pending, shell, gen, true, at);
      PlacesBound(pending[..n], shell, gen, true, at);
      if Releasable(pending[n], shell, gen) {
        at := at + [n];
      }
    }
  }

  /** And leaves the others in their order. */
  lemma {:induction false} KeptExact(pending: seq<Held>, shell: string, gen: nat) returns (at: seq<nat>)
    ensures Places(pending, shell, gen, false, at) && |Kept(pending, shell, gen)| == |at|
    ensures forall a | 0 <= a < |at| :: at[a] < |pending| && Kept(pending, shell, gen)[a] == pending[at[a]]
  {
    hide Places;
    if pending == [] {
      at := [];
      assert Places(pending, shell, gen, false, at) by { NoPlaces(shell, gen, false); }
    } else {
      var n := |pending| - 1;
      at := KeptExact(pending[..n], shell, gen);
      PlacesNext(pending, shell, gen, false, at);
      PlacesBound(pending[..n], shell, gen, false, at);
      if !Releasable(pending[n], shell, gen) {
        at := at + [n];
      }
    }
  }

  lemma NoPlaces(shell: string, gen: nat, out: bool)
    ensures Places([], shell, gen, out, [])
  {
  }

  lemma PlacesBound(pending: seq<Held>, shell: string, gen: nat, out: bool, at: seq<nat>)
    requires Places(pending, shell, gen, out, at)
    ensures forall a | 0 <= a < |at| :: at[a] < |pending|
  {
  }
}
