/** One line to a prompt: exactly when every two presses into a shell have one of that shell's own
    readiness lines between them. */
module SchedulerPrompts {
  import opened Bytes
  import opened StepScheduler
  import opened SchedulerRuns

  // ----- the property

  predicate Into(p: Press, shell: string) { !p.Free? && p.shell == shell }

  /** The shell printed a readiness line after the first `from` and among the first `to`. */
  ghost predicate ReadyBetween(ready: seq<string>, shell: string, from: nat, to: nat)
  {
    exists g | from <= g < to && g < |ready| :: ready[g] == shell
  }

  /** Every two presses into the shell, in the order they were handed over, have a readiness line
      of that shell between them. */
  ghost predicate Prompted(s: State, shell: string)
  {
    forall i, j | 0 <= i < j < |s.sent| && Into(s.sent[i], shell) && Into(s.sent[j], shell) ::
      ReadyBetween(s.ready, shell, s.sent[i].gen, s.sent[j].gen)
  }

  // ----- the guards

  /** How many presses are held for a shell. */
  function HeldInto(pending: seq<Held>, shell: string): nat
  {
    if pending == [] then 0
    else HeldInto(pending[..|pending| - 1], shell) + if pending[|pending| - 1].shell == shell then 1 else 0
  }

  /** A readiness line of the shell finds at most one press held for it. */
  predicate CleanReady(s: State, line: Line, shell: string)
  {
    line.ready == Some(shell) ==> HeldInto(s.pending, shell) <= 1
  }

  /** The shell known once a step has captured what it found. */
  function ShellAfter(step: Step, s: State, text: string): string
  {
    if step.capture == Some("shell") then text else if "shell" in s.captures then s.captures["shell"] else ""
  }

  /** The step's guard lets it fire on this line and type into the shell at once: it waits for the
      shell, and the shell's last press is not of this generation. */
  predicate TypesAtOnce(steps: seq<Step>, s: State, index: nat, line: Line, shell: string)
    requires index < |steps| == |s.matches|
  {
    && MayFire(steps, s, index) && line.find(index, s.captures).Some? && steps[index].press && steps[index].awaitShell
    && shell != "" && ShellAfter(steps[index], s, line.find(index, s.captures).value) == shell
    && !(shell in s.typed && s.typed[shell] == |s.ready|)
  }

  /** A step types into the shell at once only if nothing was typed into it before, or it has
      prompted since. */
  ghost predicate CleanStep(steps: seq<Step>, s: State, index: nat, line: Line, shell: string)
    requires index < |steps| == |s.matches|
  {
    TypesAtOnce(steps, s, index, line, shell) && shell in s.typed ==>
      ReadyBetween(s.ready, shell, s.typed[shell], |s.ready|)
  }

  ghost predicate CleanSteps(steps: seq<Step>, s: State, index: nat, line: Line, shell: string)
    requires index <= |steps| == |s.matches|
    decreases |steps| - index
  {
    index == |steps| ||
    (CleanStep(steps, s, index, line, shell) && CleanSteps(steps, TryStep(steps, s, index, line), index + 1, line, shell))
  }

  function AfterReady(s: State, line: Line): (r: State)
    ensures |r.matches| == |s.matches|
  {
    if line.ready.Some? then OnReady(s, line.ready.value) else s
  }

  /** Both guards, at every line of a run. */
  ghost predicate CleanRun(steps: seq<Step>, lines: seq<Line>, shell: string)
  {
    lines == [] ||
    (var n := |lines| - 1; var s := Run(steps, lines[..n]);
     && CleanRun(steps, lines[..n], shell) && CleanReady(s, lines[n], shell)
     && CleanSteps(steps, AfterReady(s, lines[n]), 0, lines[n], shell))
  }

  // ----- what was typed last

  /** The generation noted for a shell is that of a press into it. */
  ghost predicate Typed(s: State)
  {
    forall shell | shell in s.typed :: exists k | 0 <= k < |s.sent| :: Into(s.sent[k], shell) && s.sent[k].gen == s.typed[shell]
  }

  lemma {:induction false} CountReleased(pending: seq<Held>, shell: string, gen: nat)
    requires forall k | 0 <= k < |pending| :: pending[k].gen < gen
    ensures |Let(pending, shell, gen)| == HeldInto(pending, shell)
  {
    if pending != [] {
      CountReleased(pending[..|pending| - 1], shell, gen);
    }
  }

  lemma TypedReady(s: State, shell: string)
    requires Typed(s) && Waiting(s)
    ensures Typed(OnReady(s, shell))
  {
    hide Kept, Let, Waiting;
    var r, out := OnReady(s, shell), Let(s.pending, shell, |s.ready| + 1);
    forall other | other in r.typed
      ensures exists k | 0 <= k < |r.sent| :: Into(r.sent[k], other) && r.sent[k].gen == r.typed[other]
    {
      if other == shell && out != [] {
        assert out[0] in out;
        ReleaseJustified(s, shell, out[0]);
        assert r.sent[|s.sent|] == out[0];
      } else {
        var k :| 0 <= k < |s.sent| && Into(s.sent[k], other) && s.sent[k].gen == s.typed[other];
        assert r.sent[k] == s.sent[k];
      }
    }
  }

  lemma TypedFire(steps: seq<Step>, s: State, index: nat, text: string)
    requires index < |steps| == |s.matches| && Typed(s)
    ensures Typed(Fire(steps, s, index, text))
  {
    var r := Fire(steps, s, index, text);
    assert forall k | 0 <= k < |s.sent| :: r.sent[k] == s.sent[k];
    forall shell | shell in r.typed
      ensures exists k | 0 <= k < |r.sent| :: Into(r.sent[k], shell) && r.sent[k].gen == r.typed[shell]
    {
      if r.typed != s.typed && r.sent[|s.sent|].shell == shell {
        assert Into(r.sent[|s.sent|], shell);
      } else {
        var k :| 0 <= k < |s.sent| && Into(s.sent[k], shell) && s.sent[k].gen == s.typed[shell];
        assert Into(r.sent[k], shell);
      }
    }
  }

  // ----- one readiness line

  /** Presses a readiness line lets out follow every earlier one by that line, and each other by
      none. */
  lemma PromptedReady(s: State, shell: string, line: string)
    requires Waiting(s) && Noted(s)
    ensures Prompted(OnReady(s, line), shell) <==>
            Prompted(s, shell) && (line == shell ==> HeldInto(s.pending, shell) <= 1)
  {
    hide Kept, Let, HeldInto;
    var r, out := OnReady(s, line), Let(s.pending, line, |s.ready| + 1);
    CountReleased(s.pending, line, |s.ready| + 1);
    forall k | |s.sent| <= k < |r.sent|
      ensures r.sent[k].Released? && r.sent[k].shell == line && r.sent[k].gen == |s.ready| + 1
    {
      assert r.sent[k] == out[k - |s.sent|] && out[k - |s.sent|] in out;
      ReleaseJustified(s, line, r.sent[k]);
    }
    OldPairs(s, r, shell);
    if Prompted(s, shell) && (line == shell ==> |out| <= 1) {
      forall i, j | 0 <= i < j < |r.sent| && Into(r.sent[i], shell) && Into(r.sent[j], shell)
        ensures ReadyBetween(r.ready, shell, r.sent[i].gen, r.sent[j].gen)
      {
        if j >= |s.sent| {
          assert i < |s.sent| && r.sent[i] == s.sent[i];
          assert r.ready[|s.ready|] == shell;
        }
      }
    }
    if line == shell && |out| >= 2 {
      var i, j := |s.sent|, |s.sent| + 1;
      assert Into(r.sent[i], shell) && Into(r.sent[j], shell);
      assert !ReadyBetween(r.ready, shell, r.sent[i].gen, r.sent[j].gen);
    }
  }

  /** What was handed over before is not touched by what comes after. */
  lemma OldPairs(s: State, r: State, shell: string)
    requires Noted(s) && s.sent <= r.sent && s.ready <= r.ready
    ensures Prompted(r, shell) ==> Prompted(s, shell)
    ensures Prompted(s, shell) ==>
              forall i, j | 0 <= i < j < |s.sent| && Into(r.sent[i], shell) && Into(r.sent[j], shell) ::
                ReadyBetween(r.ready, shell, r.sent[i].gen, r.sent[j].gen)
  {
    hide ReadyBetween;
    forall i, j | 0 <= i < j < |s.sent| && Into(s.sent[i], shell) && Into(s.sent[j], shell)
      ensures r.sent[i] == s.sent[i] && r.sent[j] == s.sent[j]
      ensures ReadyBetween(r.ready, shell, s.sent[i].gen, s.sent[j].gen) <==>
              ReadyBetween(s.ready, shell, s.sent[i].gen, s.sent[j].gen)
    {
      LaterLines(s.ready, r.ready, shell, s.sent[i].gen, s.sent[j].gen);
    }
  }

  lemma LaterLines(a: seq<string>, b: seq<string>, shell: string, from: nat, to: nat)
    requires a <= b && to <= |a|
    ensures ReadyBetween(a, shell, from, to) <==> ReadyBetween(b, shell, from, to)
  {
    if ReadyBetween(b, shell, from, to) {
      var g :| from <= g < to && g < |b| && b[g] == shell;
      assert a[g] == shell;
    }
  }

  // ----- one step

  lemma PromptedStep(steps: seq<Step>, s: State, index: nat, line: Line, shell: string)
    requires index < |steps| == |s.matches| && Noted(s) && Typed(s)
    ensures Prompted(TryStep(steps, s, index, line), shell) <==>
            Prompted(s, shell) && CleanStep(steps, s, index, line, shell)
  {
    var r := TryStep(steps, s, index, line);
    hide TryStep, TypesAtOnce, Typed, Noted;
    StepSends(steps, s, index, line, shell);
    OldPairs(s, r, shell);
    if |r.sent| > |s.sent| && Into(r.sent[|s.sent|], shell) {
      DirectPress(s, r, shell);
    }
  }

  /** A step hands over at most one press, and one into the shell exactly when its guard says. */
  lemma StepSends(steps: seq<Step>, s: State, index: nat, line: Line, shell: string)
    requires index < |steps| == |s.matches|
    ensures var r := TryStep(steps, s, index, line);
            && s.sent <= r.sent && r.ready == s.ready && |r.sent| <= |s.sent| + 1
            && (|r.sent| > |s.sent| ==> r.sent[|s.sent|].Free? || (r.sent[|s.sent|].Direct? && r.sent[|s.sent|].gen == |s.ready|))
            && (TypesAtOnce(steps, s, index, line, shell) <==> |r.sent| > |s.sent| && Into(r.sent[|s.sent|], shell))
  {
  }

  /** A press at once is prompted from all before it exactly when it is from the last noted. */
  lemma DirectPress(s: State, r: State, shell: string)
    requires Noted(s) && Typed(s) && |r.sent| == |s.sent| + 1 && s.sent <= r.sent && r.ready == s.ready
    requires r.sent[|s.sent|].Direct? && r.sent[|s.sent|].shell == shell && r.sent[|s.sent|].gen == |s.ready|
    ensures Prompted(r, shell) <==>
            Prompted(s, shell) && (shell in s.typed ==> ReadyBetween(s.ready, shell, s.typed[shell], |s.ready|))
  {
    var n := |s.sent|;
    OldPairs(s, r, shell);
    if shell in s.typed {
      var k :| 0 <= k < n && Into(s.sent[k], shell) && s.sent[k].gen == s.typed[shell];
      assert r.sent[k] == s.sent[k] && Into(r.sent[k], shell) && Into(r.sent[n], shell);
      if Prompted(s, shell) && ReadyBetween(s.ready, shell, s.typed[shell], |s.ready|) {
        var g :| s.typed[shell] <= g < |s.ready| && s.ready[g] == shell;
        forall i, j | 0 <= i < j < |r.sent| && Into(r.sent[i], shell) && Into(r.sent[j], shell)
          ensures ReadyBetween(r.ready, shell, r.sent[i].gen, r.sent[j].gen)
        {
          if j == n {
            assert r.sent[i] == s.sent[i] && s.sent[i].gen <= g < r.sent[j].gen;
          }
        }
      }
    }
  }

  // ----- every run

  lemma {:induction false} PromptedSteps(steps: seq<Step>, s: State, index: nat, line: Line, shell: string)
    requires index <= |steps| && Invariant(steps, s) && Typed(s)
    ensures Typed(TrySteps(steps, s, index, line))
    ensures Prompted(TrySteps(steps, s, index, line), shell) <==>
            Prompted(s, shell) && CleanSteps(steps, s, index, line, shell)
    decreases |steps| - index
  {
    hide Chained, Capped, Conserved, Waiting, Justified, Noted, Paced, TryStep, Prompted, Typed, CleanStep;
    if index < |steps| {
      TryKeeps(steps, s, index, line);
      TypedStep(steps, s, index, line);
      PromptedStep(steps, s, index, line, shell);
      PromptedSteps(steps, TryStep(steps, s, index, line), index + 1, line, shell);
    }
  }

  lemma TypedStep(steps: seq<Step>, s: State, index: nat, line: Line)
    requires index < |steps| == |s.matches| && Typed(s)
    ensures Typed(TryStep(steps, s, index, line))
  {
    hide Fire, Typed;
    if MayFire(steps, s, index) {
      match line.find(index, s.captures)
      case None =>
      case Some(text) => TypedFire(steps, s, index, text);
    }
  }

  lemma InvariantParts(steps: seq<Step>, s: State)
    requires Invariant(steps, s)
    ensures |s.matches| == |steps| && Waiting(s) && Noted(s)
  {
  }

  lemma NothingTyped(steps: seq<Step>, shell: string)
    ensures Typed(Start(steps)) && Prompted(Start(steps), shell)
  {
  }

  lemma {:induction false} PromptedLines(steps: seq<Step>, lines: seq<Line>, shell: string)
    ensures Typed(Run(steps, lines))
    ensures Prompted(Run(steps, lines), shell) <==> CleanRun(steps, lines, shell)
  {
    hide Invariant, OnReady, TrySteps, CleanSteps, CleanReady, Prompted, Typed;
    if lines == [] {
      NothingTyped(steps, shell);
    } else {
      var n := |lines| - 1;
      var s, line := Run(steps, lines[..n]), lines[n];
      PromptedLines(steps, lines[..n], shell);
      EveryRun(steps, lines[..n]);
      LineReady(steps, s, line, shell);
      PromptedSteps(steps, AfterReady(s, line), 0, line, shell);
    }
  }

  lemma LineReady(steps: seq<Step>, s: State, line: Line, shell: string)
    requires Invariant(steps, s) && Typed(s)
    ensures Invariant(steps, AfterReady(s, line)) && Typed(AfterReady(s, line)) && |s.matches| == |steps|
    ensures Prompted(AfterReady(s, line), shell) <==> Prompted(s, shell) && CleanReady(s, line, shell)
  {
    hide Invariant, OnReady, Prompted, Typed;
    InvariantParts(steps, s);
    if line.ready.Some? {
      ReadyKeeps(steps, s, line.ready.value);
      TypedReady(s, line.ready.value);
      PromptedReady(s, shell, line.ready.value);
    }
  }

  /** In every run, every two presses into a shell have one of its readiness lines between them if
      and only if no readiness line of the shell found two presses held for it, and no step typed
      into it at once that had not seen it prompt since the last press. */
  lemma PromptedIff(steps: seq<Step>, lines: seq<Line>, shell: string)
    ensures Prompted(Run(steps, lines), shell) <==> CleanRun(steps, lines, shell)
  {
    hide Run, Prompted, CleanRun;
    PromptedLines(steps, lines, shell);
  }

  // ----- one shell on the console

  /** The first guard alone, at every line of a run. */
  ghost predicate NeverTwoHeld(steps: seq<Step>, lines: seq<Line>, shell: string)
  {
    lines == [] ||
    (var n := |lines| - 1;
     NeverTwoHeld(steps, lines[..n], shell) && CleanReady(Run(steps, lines[..n]), lines[n], shell))
  }

  ghost predicate OneShell(lines: seq<Line>, shell: string)
  {
    forall i | 0 <= i < |lines| :: lines[i].ready.Some? ==> lines[i].ready.value == shell
  }

  lemma {:induction false} OneShellSteps(steps: seq<Step>, s: State, index: nat, line: Line, shell: string)
    requires index <= |steps| && Invariant(steps, s) && forall g | 0 <= g < |s.ready| :: s.ready[g] == shell
    ensures CleanSteps(steps, s, index, line, shell) && TrySteps(steps, s, index, line).ready == s.ready
    decreases |steps| - index
  {
    hide Chained, Capped, Conserved, Waiting, Justified, Paced, TryStep, MayFire;
    if index < |steps| {
      TryKeeps(steps, s, index, line);
      StepSends(steps, s, index, line, shell);
      OneShellSteps(steps, TryStep(steps, s, index, line), index + 1, line, shell);
      if TypesAtOnce(steps, s, index, line, shell) && shell in s.typed {
        assert s.ready[s.typed[shell]] == shell;
      }
    }
  }

  lemma {:induction false} OneShellRun(steps: seq<Step>, lines: seq<Line>, shell: string)
    requires OneShell(lines, shell)
    ensures forall g | 0 <= g < |Run(steps, lines).ready| :: Run(steps, lines).ready[g] == shell
    ensures CleanRun(steps, lines, shell) <==> NeverTwoHeld(steps, lines, shell)
  {
    hide Invariant, CleanSteps, CleanReady, TrySteps;
    if lines != [] {
      var n := |lines| - 1;
      OneShellRun(steps, lines[..n], shell);
      EveryRun(steps, lines[..n]);
      var s, line := Run(steps, lines[..n]), lines[n];
      KeepsReady(steps, s, line);
      OneShellSteps(steps, AfterReady(s, line), 0, line, shell);
    }
  }

  lemma KeepsReady(steps: seq<Step>, s: State, line: Line)
    requires Invariant(steps, s)
    ensures Invariant(steps, AfterReady(s, line)) && |s.matches| == |steps|
  {
    hide Chained, Capped, Conserved, Waiting, Justified, Noted, Paced, OnReady;
    if line.ready.Some? {
      ReadyKeeps(steps, s, line.ready.value);
    }
  }

  /** Where the console's readiness lines are one shell's, its presses are one to a prompt exactly
      when no readiness line found two of them held. */
  lemma OneShellPromptedIff(steps: seq<Step>, lines: seq<Line>, shell: string)
    requires OneShell(lines, shell)
    ensures Prompted(Run(steps, lines), shell) <==> NeverTwoHeld(steps, lines, shell)
  {
    hide Run, Prompted, CleanRun, NeverTwoHeld, OneShell;
    PromptedIff(steps, lines, shell);
    OneShellRun(steps, lines, shell);
  }
}
