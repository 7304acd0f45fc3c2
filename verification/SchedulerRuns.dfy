/** What holds of the runner's steps in every run, whatever the console prints. */
module SchedulerRuns {
  import opened Bytes
  import opened StepScheduler

  // ----- the invariants

  /** The waiting steps that have fired are a prefix of the waiting steps. */
  ghost predicate Chained(steps: seq<Step>, s: State)
    requires |s.matches| == |steps|
  {
    forall i, j | 0 <= i < j < |steps| && steps[i].awaitShell && steps[j].awaitShell ::
      s.matches[j] > 0 ==> s.matches[i] > 0
  }

  ghost predicate Capped(steps: seq<Step>, s: State)
    requires |s.matches| == |steps|
  {
    forall i | 0 <= i < |steps| :: steps[i].times != 0 ==> s.matches[i] <= steps[i].times
  }

  function SentFor(sent: seq<Press>, i: nat): nat
  {
    if sent == [] then 0 else SentFor(sent[..|sent| - 1], i) + if sent[|sent| - 1].step == i then 1 else 0
  }

  function HeldFor(pending: seq<Held>, i: nat): nat
  {
    if pending == [] then 0 else HeldFor(pending[..|pending| - 1], i) + if pending[|pending| - 1].step == i then 1 else 0
  }

  /** Every press a step has asked for was handed to the typist once, or is still held. */
  ghost predicate Conserved(steps: seq<Step>, s: State)
    requires |s.matches| == |steps|
  {
    forall i | 0 <= i < |steps| ::
      SentFor(s.sent, i) + HeldFor(s.pending, i) == if steps[i].press then s.matches[i] else 0
  }

  /** No readiness line of its shell has come since a press was held. */
  ghost predicate Waiting(s: State)
  {
    forall k | 0 <= k < |s.pending| ::
      && s.pending[k].gen <= |s.ready|
      && forall g | s.pending[k].gen <= g < |s.ready| :: s.ready[g] != s.pending[k].shell
  }

  /** Generation `gen` is the readiness line that released `p`: one of its own shell, after it
      was held, and the first such. */
  ghost predicate ReleasedBy(p: Press, ready: seq<string>)
    requires p.Released?
  {
    && p.heldAt < p.gen <= |ready| && ready[p.gen - 1] == p.shell
    && forall g | p.heldAt <= g < p.gen - 1 :: ready[g] != p.shell
  }

  ghost predicate Justified(s: State)
  {
    forall k | 0 <= k < |s.sent| :: s.sent[k].Released? ==> ReleasedBy(s.sent[k], s.ready)
  }

  /** What was last typed into each shell, and when. */
  ghost predicate Noted(s: State)
  {
    && (forall k | 0 <= k < |s.sent| && !s.sent[k].Free? ::
          s.sent[k].shell in s.typed && s.sent[k].gen <= s.typed[s.sent[k].shell])
    && (forall shell | shell in s.typed :: s.typed[shell] <= |s.ready|)
  }

  /** Two presses into one shell are apart by a readiness line, or left it on the same one. */
  ghost predicate Apart(p: Press, q: Press)
  {
    !p.Free? && !q.Free? && p.shell == q.shell ==>
      p.gen < q.gen || (p.Released? && q.Released? && p.gen == q.gen)
  }

  ghost predicate Paced(s: State)
  {
    forall i, j | 0 <= i < j < |s.sent| :: Apart(s.sent[i], s.sent[j])
  }

  ghost predicate Invariant(steps: seq<Step>, s: State)
  {
    && |s.matches| == |steps| && Chained(steps, s) && Capped(steps, s) && Conserved(steps, s)
    && Waiting(s) && Justified(s) && Noted(s) && Paced(s)
  }

  // ----- counting

  lemma {:induction false} SentAppend(a: seq<Press>, b: seq<Press>, i: nat)
    ensures SentFor(a + b, i) == SentFor(a, i) + SentFor(b, i)
    decreases |b|
  {
    if b == [] {
      assert a + b == a;
    } else {
      assert (a + b)[..|a + b| - 1] == a + b[..|b| - 1];
      SentAppend(a, b[..|b| - 1], i);
    }
  }

  lemma {:induction false} HeldAppend(a: seq<Held>, b: seq<Held>, i: nat)
    ensures HeldFor(a + b, i) == HeldFor(a, i) + HeldFor(b, i)
    decreases |b|
  {
    if b == [] {
      assert a + b == a;
    } else {
      assert (a + b)[..|a + b| - 1] == a + b[..|b| - 1];
      HeldAppend(a, b[..|b| - 1], i);
    }
  }

  /** A readiness line moves presses from held to handed and loses none. */
  lemma {:induction false} ReleaseConserves(pending: seq<Held>, shell: string, gen: nat, i: nat)
    ensures HeldFor(pending, i) == HeldFor(Kept(pending, shell, gen), i) + SentFor(Let(pending, shell, gen), i)
  {
    if pending != [] {
      var n := |pending| - 1; var h := pending[n];
      ReleaseConserves(pending[..n], shell, gen, i);
      if Releasable(h, shell, gen) {
        var before := Let(pending[..n], shell, gen);
        assert (before + [Released(h.step, shell, gen, h.gen)])[..|before|] == before;
        assert Kept(pending, shell, gen) == Kept(pending[..n], shell, gen);
      } else {
        assert Let(pending, shell, gen) == Let(pending[..n], shell, gen);
        var before := Kept(pending[..n], shell, gen);
        assert (before + [h])[..|before|] == before;
      }
    }
  }

  // ----- a readiness line

  lemma ReadyConserved(steps: seq<Step>, s: State, shell: string)
    requires |s.matches| == |steps| && Conserved(steps, s)
    ensures Conserved(steps, OnReady(s, shell))
  {
    hide SentFor, HeldFor, Kept, Let;
    var gen := |s.ready| + 1;
    forall i | 0 <= i < |steps|
      ensures SentFor(OnReady(s, shell).sent, i) + HeldFor(OnReady(s, shell).pending, i) == if steps[i].press then s.matches[i] else 0
    {
      ReleaseConserves(s.pending, shell, gen, i);
      SentAppend(s.sent, Let(s.pending, shell, gen), i);
    }
  }

  lemma ReadyWaiting(s: State, shell: string)
    requires Waiting(s)
    ensures Waiting(OnReady(s, shell))
  {
    hide Kept, Let;
    var r, gen := OnReady(s, shell), |s.ready| + 1;
    KeptAre(s.pending, shell, gen);
    forall k | 0 <= k < |r.pending|
      ensures r.pending[k].gen <= |r.ready| && forall g | r.pending[k].gen <= g < |r.ready| :: r.ready[g] != r.pending[k].shell
    {
      assert r.pending[k] in r.pending;
      var j :| 0 <= j < |s.pending| && s.pending[j] == r.pending[k];
    }
  }

  lemma ReleaseJustified(s: State, shell: string, p: Press)
    requires Waiting(s) && p in Let(s.pending, shell, |s.ready| + 1)
    ensures p.Released? && p.shell == shell && p.gen == |s.ready| + 1 && ReleasedBy(p, s.ready + [shell])
  {
    hide Let;
    LetAre(s.pending, shell, |s.ready| + 1);
    var h := Held(p.step, p.shell, p.heldAt);
    var j :| 0 <= j < |s.pending| && s.pending[j] == h;
  }

  lemma ReadyJustified(s: State, shell: string)
    requires Waiting(s) && Justified(s)
    ensures Justified(OnReady(s, shell))
  {
    hide Kept, Let;
    var r, out := OnReady(s, shell), Let(s.pending, shell, |s.ready| + 1);
    forall k | 0 <= k < |r.sent| && r.sent[k].Released? ensures ReleasedBy(r.sent[k], r.ready) {
      if k < |s.sent| {
        assert r.sent[k] == s.sent[k] && ReleasedBy(s.sent[k], s.ready);
      } else {
        assert r.sent[k] == out[k - |s.sent|] && out[k - |s.sent|] in out;
        ReleaseJustified(s, shell, r.sent[k]);
      }
    }
  }

  lemma ReadyPaced(s: State, shell: string)
    requires Waiting(s) && Noted(s) && Paced(s)
    ensures Noted(OnReady(s, shell)) && Paced(OnReady(s, shell))
  {
    hide Kept, Let, Waiting, ReleasedBy;
    var r, out := OnReady(s, shell), Let(s.pending, shell, |s.ready| + 1);
    forall k | |s.sent| <= k < |r.sent| ensures r.sent[k].Released? && r.sent[k].shell == shell && r.sent[k].gen == |r.ready| {
      assert r.sent[k] == out[k - |s.sent|] && out[k - |s.sent|] in out;
      ReleaseJustified(s, shell, r.sent[k]);
    }
    forall k | 0 <= k < |s.sent| ensures r.sent[k] == s.sent[k] {
    }
    forall i, j | 0 <= i < j < |r.sent| ensures Apart(r.sent[i], r.sent[j]) {
      if j < |s.sent| {
        assert Apart(s.sent[i], s.sent[j]);
      }
    }
  }

  lemma ReadyKeeps(steps: seq<Step>, s: State, shell: string)
    requires Invariant(steps, s)
    ensures Invariant(steps, OnReady(s, shell))
  {
    hide Conserved, Waiting, Justified, Noted, Paced, Kept, Let;
    ReadyConserved(steps, s, shell);
    ReadyWaiting(s, shell);
    ReadyJustified(s, shell);
    ReadyPaced(s, shell);
  }

  // ----- a step that fires

  lemma FireChained(steps: seq<Step>, s: State, index: nat, text: string)
    requires index < |steps| == |s.matches| && MayFire(steps, s, index) && Chained(steps, s) && Capped(steps, s)
    ensures |Fire(steps, s, index, text).matches| == |steps|
    ensures Chained(steps, Fire(steps, s, index, text)) && Capped(steps, Fire(steps, s, index, text))
  {
    var r := Fire(steps, s, index, text);
    assert r.matches == s.matches[index := s.matches[index] + 1];
    forall i, j | 0 <= i < j < |steps| && steps[i].awaitShell && steps[j].awaitShell && r.matches[j] > 0
      ensures r.matches[i] > 0
    {
      if j == index {
        var prior := Prior(steps, index).value;
        assert i <= prior;
      }
    }
  }

  lemma FireConserved(steps: seq<Step>, s: State, index: nat, text: string)
    requires index < |steps| == |s.matches| && Conserved(steps, s)
    ensures |Fire(steps, s, index, text).matches| == |steps| && Conserved(steps, Fire(steps, s, index, text))
  {
    hide SentFor, HeldFor;
    var r := Fire(steps, s, index, text);
    assert r.matches == s.matches[index := s.matches[index] + 1];
    forall i | 0 <= i < |steps|
      ensures SentFor(r.sent, i) + HeldFor(r.pending, i) == if steps[i].press then r.matches[i] else 0
    {
      OneMore(s.sent, s.pending, i);
    }
  }

  lemma OneMore(sent: seq<Press>, pending: seq<Held>, i: nat)
    ensures forall p :: SentFor(sent + [p], i) == SentFor(sent, i) + if p.step == i then 1 else 0
    ensures forall h :: HeldFor(pending + [h], i) == HeldFor(pending, i) + if h.step == i then 1 else 0
  {
    forall p ensures SentFor(sent + [p], i) == SentFor(sent, i) + if p.step == i then 1 else 0 {
      assert (sent + [p])[..|sent|] == sent;
    }
    forall h ensures HeldFor(pending + [h], i) == HeldFor(pending, i) + if h.step == i then 1 else 0 {
      assert (pending + [h])[..|pending|] == pending;
    }
  }

  lemma FireKeepsHeld(steps: seq<Step>, s: State, index: nat, text: string)
    requires index < |steps| == |s.matches| && Waiting(s) && Justified(s)
    ensures Waiting(Fire(steps, s, index, text)) && Justified(Fire(steps, s, index, text))
  {
    hide ReleasedBy;
    var r := Fire(steps, s, index, text);
    assert r.ready == s.ready;
    forall k | 0 <= k < |r.sent| && r.sent[k].Released? ensures ReleasedBy(r.sent[k], r.ready) {
      assert r.sent[k] == s.sent[k];
    }
  }

  lemma FirePaced(steps: seq<Step>, s: State, index: nat, text: string)
    requires index < |steps| == |s.matches| && Noted(s) && Paced(s)
    ensures Noted(Fire(steps, s, index, text)) && Paced(Fire(steps, s, index, text))
  {
    var r := Fire(steps, s, index, text);
    assert r.ready == s.ready;
    assert forall k | 0 <= k < |s.sent| :: r.sent[k] == s.sent[k];
    forall i, j | 0 <= i < j < |r.sent| ensures Apart(r.sent[i], r.sent[j]) {
      if j < |s.sent| {
        assert Apart(s.sent[i], s.sent[j]);
      }
    }
  }

  lemma TryKeeps(steps: seq<Step>, s: State, index: nat, line: Line)
    requires Invariant(steps, s) && index < |steps|
    ensures Invariant(steps, TryStep(steps, s, index, line))
  {
    hide Chained, Capped, Conserved, Waiting, Justified, Noted, Paced, Fire, MayFire;
    if MayFire(steps, s, index) {
      match line.find(index, s.captures)
      case None =>
      case Some(text) =>
        FireChained(steps, s, index, text);
        FireConserved(steps, s, index, text);
        FireKeepsHeld(steps, s, index, text);
        FirePaced(steps, s, index, text);
    }
  }

  lemma {:induction false} TryAllKeeps(steps: seq<Step>, s: State, index: nat, line: Line)
    requires Invariant(steps, s) && index <= |steps|
    ensures Invariant(steps, TrySteps(steps, s, index, line))
    decreases |steps| - index
  {
    hide Chained, Capped, Conserved, Waiting, Justified, Noted, Paced, TryStep;
    if index < |steps| {
      TryKeeps(steps, s, index, line);
      TryAllKeeps(steps, TryStep(steps, s, index, line), index + 1, line);
    }
  }

  lemma {:induction false} NoneYet(steps: seq<Step>)
    ensures Invariant(steps, Start(steps))
  {
  }

  /** Every run keeps the invariants: the chain, the caps, the conservation of presses, and what
      released or let through each of them. */
  lemma {:induction false} EveryRun(steps: seq<Step>, lines: seq<Line>)
    ensures Invariant(steps, Run(steps, lines))
  {
    hide Invariant, OnReady, TrySteps;
    if lines == [] {
      NoneYet(steps);
    } else {
      var n := |lines| - 1;
      var s, line := Run(steps, lines[..n]), lines[n];
      EveryRun(steps, lines[..n]);
      SameSteps(steps, s);
      if line.ready.Some? {
        ReadyKeeps(steps, s, line.ready.value);
        SameSteps(steps, OnReady(s, line.ready.value));
        TryAllKeeps(steps, OnReady(s, line.ready.value), 0, line);
      } else {
        TryAllKeeps(steps, s, 0, line);
      }
    }
  }

  lemma SameSteps(steps: seq<Step>, s: State)
    requires Invariant(steps, s)
    ensures |s.matches| == |steps|
  {
  }

  // ----- two runs that type more than one line to a prompt

  const CUE: Step := Step({}, Some("shell"), false, 1, false)
  const TYPED: Step := Step({}, None, true, 1, true)

  /** A line every step from `lo` up to `hi` finds its trigger in, and which may be a prompt. */
  function Cue(lo: nat, hi: nat, ready: Option<string>): Line
  {
    Line(ready, (i: nat, c: map<string, string>) => if lo <= i < hi then Some("1") else None)
  }

  /** The states a line takes the steps through, one after another. */
  ghost predicate Through(steps: seq<Step>, states: seq<State>, line: Line)
  {
    && |states| == |steps| + 1
    && (forall i | 0 <= i <= |steps| :: |states[i].matches| == |steps|)
    && (forall i, j | 0 <= i < |steps| && j == i + 1 :: TryStep(steps, states[i], i, line) == states[j])
  }

  lemma {:induction false} ThroughAll(steps: seq<Step>, states: seq<State>, line: Line, index: nat)
    requires Through(steps, states, line) && index <= |steps|
    ensures TrySteps(steps, states[index], index, line) == states[|steps|]
    decreases |steps| - index
  {
    hide TryStep;
    if index < |steps| {
      ThroughAll(steps, states, line, index + 1);
      var j := index + 1;
      assert TryStep(steps, states[index], index, line) == states[j];
    }
  }

  lemma OneLine(steps: seq<Step>, line: Line)
    requires line.ready.None?
    ensures Run(steps, [line]) == TrySteps(steps, Start(steps), 0, line)
  {
    hide TrySteps;
    assert [line][..0] == [];
  }

  const SHELL: map<string, string> := map["shell" := "1"]

  lemma HeldTwice()
    ensures var steps, line := [CUE, TYPED, TYPED, TYPED], Cue(0, 4, None);
            var s2 := State([1, 1, 0, 0], SHELL, [], [], map["1" := 0], [Direct(1, "1", 0)]);
            var s3 := State([1, 1, 1, 0], SHELL, [], [Held(2, "1", 0)], map["1" := 0], [Direct(1, "1", 0)]);
            var s4 := State([1, 1, 1, 1], SHELL, [], [Held(2, "1", 0), Held(3, "1", 0)], map["1" := 0], [Direct(1, "1", 0)]);
            TryStep(steps, s2, 2, line) == s3 && TryStep(steps, s3, 3, line) == s4
  {
  }

  lemma BusyShell()
    ensures var steps := [CUE, TYPED, TYPED, TYPED];
            Run(steps, [Cue(0, 4, None)]) ==
            State([1, 1, 1, 1], SHELL, [], [Held(2, "1", 0), Held(3, "1", 0)], map["1" := 0], [Direct(1, "1", 0)])
  {
    hide TrySteps, Run;
    var steps, line := [CUE, TYPED, TYPED, TYPED], Cue(0, 4, None);
    var s0 := Start(steps);
    var s1 := State([1, 0, 0, 0], SHELL, [], [], map[], []);
    var s2 := State([1, 1, 0, 0], SHELL, [], [], map["1" := 0], [Direct(1, "1", 0)]);
    var s3 := State([1, 1, 1, 0], SHELL, [], [Held(2, "1", 0)], map["1" := 0], [Direct(1, "1", 0)]);
    var s4 := State([1, 1, 1, 1], SHELL, [], [Held(2, "1", 0), Held(3, "1", 0)], map["1" := 0], [Direct(1, "1", 0)]);
    assert TryStep(steps, s0, 0, line) == s1 && TryStep(steps, s1, 1, line) == s2;
    HeldTwice();
    ThroughAll(steps, [s0, s1, s2, s3, s4], line, 0);
    OneLine(steps, line);
  }

  /** One prompt can let out several lines: steps that match while the shell is busy are all
      held, and all leave on its next readiness line. Until then every step has fired, so the
      run may end with their keys never typed. */
  lemma SeveralOnOnePrompt()
    ensures var steps := [CUE, TYPED, TYPED, TYPED];
            var first := Run(steps, [Cue(0, 4, None)]);
            && first.matches == [1, 1, 1, 1] && first.pending == [Held(2, "1", 0), Held(3, "1", 0)]
            && OnLine(steps, first, Cue(0, 0, Some("1"))).sent ==
               [Direct(1, "1", 0), Released(2, "1", 1, 0), Released(3, "1", 1, 0)]
  {
    hide Run, TrySteps, Let;
    var steps := [CUE, TYPED, TYPED, TYPED];
    BusyShell();
    AllReleased();
    NothingFires(steps, OnReady(Run(steps, [Cue(0, 4, None)]), "1"), 0, Cue(0, 0, Some("1")));
  }

  lemma AllReleased()
    ensures var pending := [Held(2, "1", 0), Held(3, "1", 0)];
            Let(pending, "1", 1) == [Released(2, "1", 1, 0), Released(3, "1", 1, 0)]
  {
    var pending := [Held(2, "1", 0), Held(3, "1", 0)];
    assert pending[..1] == [Held(2, "1", 0)];
    assert [Held(2, "1", 0)][..0] == [];
  }

  lemma {:induction false} NothingFires(steps: seq<Step>, s: State, index: nat, line: Line)
    requires index <= |steps| == |s.matches| && (forall i, c :: line.find(i, c) == None)
    ensures TrySteps(steps, s, index, line) == s
    decreases |steps| - index
  {
    if index < |steps| {
      NothingFires(steps, s, index + 1, line);
    }
  }

  lemma OneTyped()
    ensures Run([CUE, TYPED, TYPED], [Cue(0, 2, None)]) ==
            State([1, 1, 0], SHELL, [], [], map["1" := 0], [Direct(1, "1", 0)])
  {
    hide Run, TrySteps;
    var steps, line := [CUE, TYPED, TYPED], Cue(0, 2, None);
    var s0 := Start(steps);
    var s1 := State([1, 0, 0], SHELL, [], [], map[], []);
    var s2 := State([1, 1, 0], SHELL, [], [], map["1" := 0], [Direct(1, "1", 0)]);
    assert TryStep(steps, s0, 0, line) == s1;
    assert TryStep(steps, s1, 1, line) == s2;
    assert TryStep(steps, s2, 2, line) == s2;
    ThroughAll(steps, [s0, s1, s2, s2], line, 0);
    OneLine(steps, line);
  }

  /** And with two shells another one's prompt lets a line into a shell that is still busy. */
  lemma AnothersPrompt()
    ensures var steps := [CUE, TYPED, TYPED];
            var s := OnLine(steps, Run(steps, [Cue(0, 2, None)]), Cue(2, 3, Some("2")));
            s.sent == [Direct(1, "1", 0), Direct(2, "1", 1)] && s.ready == ["2"]
  {
    hide Run, TrySteps;
    OneTyped();
    var steps, next := [CUE, TYPED, TYPED], Cue(2, 3, Some("2"));
    var s := State([1, 1, 0], SHELL, ["2"], [], map["1" := 0], [Direct(1, "1", 0)]);
    assert OnReady(Run(steps, [Cue(0, 2, None)]), "2") == s;
    var after := State([1, 1, 1], SHELL, ["2"], [], map["1" := 1], [Direct(1, "1", 0), Direct(2, "1", 1)]);
    assert TryStep(steps, s, 0, next) == s;
    assert TryStep(steps, s, 1, next) == s;
    assert TryStep(steps, s, 2, next) == after;
    ThroughAll(steps, [s, s, s, after], next, 0);
  }
}
