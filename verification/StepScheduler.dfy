/** The console runner's scripted steps: which may fire on a line, and when the keys they ask
    for are typed, held, or released. Regular expressions are a function of the line. */
module StepScheduler {
  import opened Bytes

  /** A step: the captured names its trigger uses, the name it captures, whether it waits for the
      shell, how often it may fire (0: always), and whether it types. */
  datatype Step = Step(wanted: set<string>, capture: Option<string>, awaitShell: bool, times: nat, press: bool)

  /** A console line: the shell it says is ready, and what a step's trigger, with the captures
      filled in, finds in it or in its join with the line before. */
  datatype Line = Line(ready: Option<string>, find: (nat, map<string, string>) -> Option<string>)

  /** Keys waiting for a shell: the step, the shell, and the readiness lines seen by then. */
  datatype Held = Held(step: nat, shell: string, gen: nat)

  /** Keys handed to the typist: without a gate, into a shell at once, or into one they were
      held for. `gen` counts the readiness lines seen by then. */
  datatype Press =
    | Free(step: nat)
    | Direct(step: nat, shell: string, gen: nat)
    | Released(step: nat, shell: string, gen: nat, heldAt: nat)

  datatype State = State(matches: seq<nat>, captures: map<string, string>, ready: seq<string>, pending: seq<Held>,
                         typed: map<string, nat>, sent: seq<Press>)

  // ----- one line

  predicate Releasable(h: Held, shell: string, gen: nat) { h.shell == shell && gen > h.gen }

  function Kept(pending: seq<Held>, shell: string, gen: nat): seq<Held>
  {
    if pending == [] then []
    else
      var n := |pending| - 1;
      Kept(pending[..n], shell, gen) + if Releasable(pending[n], shell, gen) then [] else [pending[n]]
  }

  function Let(pending: seq<Held>, shell: string, gen: nat): seq<Press>
  {
    if pending == [] then []
    else
      var n := |pending| - 1; var h := pending[n];
      Let(pending[..n], shell, gen) +
      if Releasable(h, shell, gen) then [Released(h.step, shell, gen, h.gen)] else []
  }

  lemma {:induction false} KeptAre(pending: seq<Held>, shell: string, gen: nat)
    ensures forall h :: h in Kept(pending, shell, gen) <==> h in pending && !Releasable(h, shell, gen)
  {
    if pending != [] {
      KeptAre(pending[..|pending| - 1], shell, gen);
    }
  }

  lemma {:induction false} LetAre(pending: seq<Held>, shell: string, gen: nat)
    ensures forall p :: p in Let(pending, shell, gen) <==>
              p.Released? && p.gen == gen && Releasable(Held(p.step, p.shell, p.heldAt), shell, gen)
              && Held(p.step, p.shell, p.heldAt) in pending
  {
    if pending != [] {
      LetAre(pending[..|pending| - 1], shell, gen);
    }
  }

  /** A readiness line: the next generation, and the keys held for its shell go out. */
  function OnReady(s: State, shell: string): State
  {
    var gen := |s.ready| + 1;
    var out := Let(s.pending, shell, gen);
    s.(ready := s.ready + [shell], pending := Kept(s.pending, shell, gen), sent := s.sent + out,
       typed := if out == [] then s.typed else s.typed[shell := gen])
  }

  /** The step before `index` that waits for the shell. */
  function Prior(steps: seq<Step>, index: nat): (r: Option<nat>)
    requires index <= |steps|
    ensures r.Some? ==> r.value < index && steps[r.value].awaitShell
                        && forall j | r.value < j < index :: !steps[j].awaitShell
    ensures r.None? ==> forall j | 0 <= j < index :: !steps[j].awaitShell
  {
    if index == 0 then None
    else if steps[index - 1].awaitShell then Some(index - 1)
    else Prior(steps, index - 1)
  }

  predicate MayFire(steps: seq<Step>, s: State, index: nat)
    requires index < |steps| == |s.matches|
  {
    && (steps[index].times == 0 || s.matches[index] < steps[index].times)
    && (steps[index].awaitShell && Prior(steps, index).Some? ==> s.matches[Prior(steps, index).value] != 0)
    && steps[index].wanted <= s.captures.Keys
  }

  /** The keys of a step that fired: gated when it waits for a shell that has been captured. */
  function Type(step: Step, s: State, index: nat): State
  {
    var shell := if "shell" in s.captures then s.captures["shell"] else "";
    var gen := |s.ready|;
    if !step.press then s
    else if !step.awaitShell || shell == "" then s.(sent := s.sent + [Free(index)])
    else if shell in s.typed && s.typed[shell] == gen then s.(pending := s.pending + [Held(index, shell, gen)])
    else s.(typed := s.typed[shell := gen], sent := s.sent + [Direct(index, shell, gen)])
  }

  function Fire(steps: seq<Step>, s: State, index: nat, text: string): State
    requires index < |steps| == |s.matches|
  {
    var counted := s.(matches := s.matches[index := s.matches[index] + 1],
                      captures := if steps[index].capture.Some? then s.captures[steps[index].capture.value := text]
                                  else s.captures);
    Type(steps[index], counted, index)
  }

  function TryStep(steps: seq<Step>, s: State, index: nat, line: Line): (r: State)
    requires index < |steps| == |s.matches|
    ensures |r.matches| == |s.matches|
  {
    if !MayFire(steps, s, index) then s
    else
      match line.find(index, s.captures)
      case None => s
      case Some(text) => Fire(steps, s, index, text)
  }

  /** The steps from `index` on, in list order. */
  function TrySteps(steps: seq<Step>, s: State, index: nat, line: Line): (r: State)
    requires index <= |steps| == |s.matches|
    ensures |r.matches| == |s.matches|
    decreases |steps| - index
  {
    if index == |steps| then s else TrySteps(steps, TryStep(steps, s, index, line), index + 1, line)
  }

  function OnLine(steps: seq<Step>, s: State, line: Line): (r: State)
    requires |steps| == |s.matches|
    ensures |r.matches| == |s.matches|
  {
    TrySteps(steps, if line.ready.Some? then OnReady(s, line.ready.value) else s, 0, line)
  }

  function Start(steps: seq<Step>): (s: State)
    ensures |s.matches| == |steps|
  {
    State(seq(|steps|, _ => 0), map[], [], [], map[], [])
  }

  function Run(steps: seq<Step>, lines: seq<Line>): (s: State)
    ensures |s.matches| == |steps|
  {
    if lines == [] then Start(steps)
    else OnLine(steps, Run(steps, lines[..|lines| - 1]), lines[|lines| - 1])
  }

  // ----- the runner itself

  class Runner {
    const steps: seq<Step>
    var matches: seq<nat>
    var captures: map<string, string>
    var ready: seq<string>
    var pending: seq<Held>
    var typed: map<string, nat>
    var sent: seq<Press>

    function Now(): State
      reads this
    {
      State(matches, captures, ready, pending, typed, sent)
    }

    constructor (script: seq<Step>)
      ensures steps == script && Now() == Start(steps)
    {
      steps := script;
      matches := seq(|script|, _ => 0);
      captures, ready, pending, typed, sent := map[], [], [], map[], [];
    }

    /** The loop over a copy of the held keys, each released one taken out of the list. */
    method Release(shell: string, gen: nat)
      requires gen == |ready|
      modifies this`pending, this`typed, this`sent
      ensures pending == Kept(old(pending), shell, gen) && sent == old(sent) + Let(old(pending), shell, gen)
      ensures typed == if Let(old(pending), shell, gen) == [] then old(typed) else old(typed)[shell := gen]
    {
      hide Without, Kept, Let;
      var copy := pending;
      NoneReleased(copy, shell, gen);
      for i := 0 to |copy|
        invariant pending == Kept(copy[..i], shell, gen) + copy[i..]
        invariant sent == old(sent) + Let(copy[..i], shell, gen)
        invariant typed == if Let(copy[..i], shell, gen) == [] then old(typed) else old(typed)[shell := gen]
      {
        var held := copy[i];
        ReleaseNext(copy, i, shell, gen);
        if held.shell == shell && gen > held.gen {
          pending := Without(pending, held);
          typed := typed[shell := gen];
          sent := sent + [Released(held.step, shell, gen, held.gen)];
        }
      }
      assert copy[..|copy|] == copy && copy[|copy|..] == [];
    }

    method Accept(line: Line)
      requires |matches| == |steps|
      modifies this
      ensures Now() == OnLine(steps, old(Now()), line)
    {
      if line.ready.Some? {
        ready := ready + [line.ready.value];
        Release(line.ready.value, |ready|);
      }
      ghost var first := Now();
      for index := 0 to |steps|
        invariant |matches| == |steps| && TrySteps(steps, first, 0, line) == TrySteps(steps, Now(), index, line)
      {
        ghost var before := Now();
        Consider(index, line);
        assert Now() == TryStep(steps, before, index, line);
      }
    }

    method Consider(index: nat, line: Line)
      requires index < |steps| == |matches|
      modifies this
      ensures Now() == TryStep(steps, old(Now()), index, line)
    {
      var step := steps[index];
      if step.times != 0 && matches[index] >= step.times {
        return;
      }
      if step.awaitShell {
        var prior := Prior(steps, index);
        if prior.Some? && matches[prior.value] == 0 {
          return;
        }
      }
      if !(step.wanted <= captures.Keys) {
        return;
      }
      var found := line.find(index, captures);
      if found.None? {
        return;
      }
      matches := matches[index := matches[index] + 1];
      if step.capture.Some? {
        captures := captures[step.capture.value := found.value];
      }
      if !step.press {
        return;
      }
      var shell := if "shell" in captures then captures["shell"] else "";
      if step.awaitShell && shell != "" {
        if shell in typed && typed[shell] == |ready| {
          pending := pending + [Held(index, shell, |ready|)];
          return;
        }
        typed := typed[shell := |ready|];
        sent := sent + [Direct(index, shell, |ready|)];
        return;
      }
      sent := sent + [Free(index)];
    }
  }

  lemma NoneReleased(copy: seq<Held>, shell: string, gen: nat)
    ensures Kept(copy[..0], shell, gen) + copy[0..] == copy && Let(copy[..0], shell, gen) == []
  {
  }

  /** One held press: kept where it is, or let out. */
  lemma ReleaseNext(copy: seq<Held>, i: nat, shell: string, gen: nat)
    requires i < |copy|
    ensures var kept, h := Kept(copy[..i], shell, gen), copy[i];
      && Let(copy[..i + 1], shell, gen) ==
         Let(copy[..i], shell, gen) + (if Releasable(h, shell, gen) then [Released(h.step, shell, gen, h.gen)] else [])
      && (Releasable(h, shell, gen) ==>
            && h in kept + copy[i..]
            && Without(kept + copy[i..], h) == Kept(copy[..i + 1], shell, gen) + copy[i + 1..])
      && (!Releasable(h, shell, gen) ==> kept + copy[i..] == Kept(copy[..i + 1], shell, gen) + copy[i + 1..])
  {
    var kept, h := Kept(copy[..i], shell, gen), copy[i];
    assert copy[..i + 1][..i] == copy[..i];
    assert kept + copy[i..] == kept + [h] + copy[i + 1..];
    KeptAre(copy[..i], shell, gen);
    if Releasable(h, shell, gen) {
      RemoveFirst(kept, h, copy[i + 1..]);
    }
  }

  /** `list.remove`: the first equal element goes. */
  function Without(s: seq<Held>, h: Held): (r: seq<Held>)
    requires h in s
  {
    if s[0] == h then s[1..] else [s[0]] + Without(s[1..], h)
  }

  lemma {:induction false} RemoveFirst(a: seq<Held>, h: Held, b: seq<Held>)
    requires h !in a
    ensures h in a + [h] + b && Without(a + [h] + b, h) == a + b
  {
    if a == [] {
      assert a + [h] + b == [h] + b;
    } else {
      assert a + [h] + b == [a[0]] + (a[1..] + [h] + b);
      RemoveFirst(a[1..], h, b);
    }
  }
}
