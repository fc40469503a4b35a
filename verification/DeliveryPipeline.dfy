/** The pipeline as it runs: generate, scan, test and repair, gate, commit, merge, verify, revert. */
module DeliveryPipeline {
  import opened Optional
  import opened Reviewer
  import opened DeliveryModel

  /** `main` is the tip of the main branch, `files` the content of the worktree. */
  class DeliveryPipeline {
    var main: Commit
    var files: seq<FileArtifact>
    var attempts: seq<Attempt>

    constructor (main: Commit)
      ensures this.main == main && files == [] && attempts == []
    {
      this.main, files, attempts := main, [], [];
    }

    method Run(w: World, o: Options) returns (r: Outcome)
      requires w.base.Some? ==> w.base.value == main
      requires files == [] && attempts == []
      modifies this
      ensures Delivery(r, main, files, attempts) == Deliver(w, o, old(main))
    {
      var ready := Prepare(w, o);
      if !ready {
        return Stopped(WhyNotPrepared(w));
      }
      var stop := HealLoop(w, o.maxRepairs);
      if stop.Some? {
        return Stopped(stop.value);
      }
      stop := PassGates(w);
      if stop.Some? {
        return Stopped(stop.value);
      }
      r := LandChange(w);
    }

    method Prepare(w: World, o: Options) returns (ready: bool)
      modifies this`files
      ensures ready == Prepared(w, o).Some?
      ensures files == if ready then Prepared(w, o).value else old(files)
    {
      if w.base.None? || w.generated.None? {
        return false;
      }
      var made := w.generated.value;
      if w.scanFinds(made) {
        return false;
      }
      if o.injectFault {
        var broken := w.broken(made);
        if broken.None? {
          return false;
        }
        made := broken.value;
      }
      if !w.writes(0, made) {
        return false;
      }
      files := made;
      ready := true;
    }

    method HealLoop(w: World, maxRepairs: int) returns (stop: Option<Reason>)
      requires attempts == []
      modifies this`files, this`attempts
      ensures Healed(stop, files, attempts) == Heal(w, old(files), 1, maxRepairs)
    {
      var n := 1;
      while n <= 1 + maxRepairs
        invariant n >= 1
        invariant Heal(w, old(files), 1, maxRepairs) == After(attempts, Heal(w, files, n, maxRepairs))
        decreases 1 + maxRepairs - n
      {
        var done;
        done, stop := TryOnce(w, n, maxRepairs);
        if done {
          return stop;
        }
        n := n + 1;
      }
      stop := None;
    }

    /** One turn of the loop. */
    method TryOnce(w: World, n: nat, maxRepairs: int) returns (done: bool, stop: Option<Reason>)
      requires n <= 1 + maxRepairs
      modifies this`files, this`attempts
      ensures done ==> Healed(stop, files, attempts) == After(old(attempts), Heal(w, old(files), n, maxRepairs))
      ensures !done ==> After(attempts, Heal(w, files, n + 1, maxRepairs)) == After(old(attempts), Heal(w, old(files), n, maxRepairs))
    {
      var t := w.tests(n, files);
      if t.Crashed? {
        assert attempts + [] == attempts;
        return true, Some(Raised);
      }
      attempts := attempts + [Attempt(n, Passes(t), FailedCount(t), None)];
      if Passes(t) {
        return true, None;
      }
      if n > maxRepairs {
        return true, Some(BudgetExhausted);
      }
      if !t.parseable {
        return true, Some(Unparseable);
      }
      done, stop := RepairOnce(w, n);
    }

    method RepairOnce(w: World, n: nat) returns (done: bool, stop: Option<Reason>)
      requires attempts != []
      modifies this`files, this`attempts
      ensures var a := old(attempts)[|old(attempts)| - 1];
              match w.repairs(n, old(files))
              case RepairRaises => done && stop == Some(Raised) && files == old(files) && attempts == old(attempts)
              case NoChange(why) => done && stop == Some(NotRepaired(why)) && files == old(files) && attempts == old(attempts)
              case Rewritten(next, why) =>
                && files == next
                && if w.writes(n, next) then !done && attempts == old(attempts)[..|old(attempts)| - 1] + [a.(diagnosis := Some(why))]
                   else done && stop == Some(Raised) && attempts == old(attempts)
    {
      match w.repairs(n, files) {
        case RepairRaises => return true, Some(Raised);
        case NoChange(why) => return true, Some(NotRepaired(why));
        case Rewritten(next, why) =>
          files := next;
          if !w.writes(n, next) {
            return true, Some(Raised);
          }
          var last := |attempts| - 1;
          attempts := attempts[last := attempts[last].(diagnosis := Some(why))];
          return false, None;
      }
    }

    method PassGates(w: World) returns (stop: Option<Reason>)
      ensures stop == Gates(w, files)
    {
      var ok := w.contract(files);
      if ok.None? {
        return Some(Raised);
      }
      if !ok.value {
        return Some(ContractMismatch);
      }
      var fast := w.benchmark(files);
      if fast.None? {
        return Some(Raised);
      }
      if !fast.value {
        return Some(TooSlow);
      }
      var diff := w.collected(files);
      if diff.None? {
        return Some(Raised);
      }
      var verdict := Judge(w, diff.value);
      return if verdict != Approve then Some(ReviewSays(verdict)) else None;
    }

    /** The review and, if there is an advisor that answers, its advice. */
    method Judge(w: World, diff: seq<FileArtifact>) returns (verdict: Verdict)
      ensures verdict == Judged(w, diff)
    {
      var review := ReviewDiff(diff, DEFAULTS);
      match w.advice(diff) {
        case Advice(findings) => review := MergeAdvisories(review, findings);
        case _ =>
      }
      verdict := review.verdict;
    }

    method LandChange(w: World) returns (r: Outcome)
      modifies this`main
      ensures Landed(r, main) == Land(w, files, old(main))
    {
      var base := main;
      var same := w.matchesMain(files);
      if same.None? {
        return Stopped(Raised);
      }
      if same.value {
        if !w.removes {
          return Stopped(Raised);
        }
        var t := w.mainTests(main);
        if t.Crashed? {
          return Stopped(Raised);
        }
        return if FailedCount(t) > 0 then Stopped(MainFails) else Delivered(true);
      }
      var sha := w.committed(files);
      if sha.None? || !w.merges {
        return Stopped(Raised);
      }
      main := sha.value;
      var t := w.mainTests(main);
      if t.Crashed? || !w.removes {
        return Stopped(Raised);
      }
      if FailedCount(t) > 0 {
        if w.resets {
          main := base;
        }
        return Stopped(Reverted);
      }
      return Delivered(false);
    }
  }

  /** What the loop yields when `before` attempts were made earlier. */
  function After(before: seq<Attempt>, h: Healed): Healed {
    h.(attempts := before + h.attempts)
  }
}
