/** Replacing a file through a temporary one on a file system whose calls may fail. The fates of the
    calls are an oracle, so every statement holds for every pattern of failures. */
module AtomicFileWrite {
  import opened Text

  /** What a call does: its work, or an error whose code is retryable (EPERM, EACCES, EBUSY) or not. */
  datatype Fate = Works | Busy | Fails

  type Faults = nat -> Fate

  /** `calls` numbers the calls; `seen` collects the target's content after each of them. */
  datatype Disk = Disk(target: Option<string>, temporary: Option<string>, calls: nat, renames: nat, slept: int,
                       seen: seq<Option<string>>)

  datatype Outcome = Written | Threw

  function After(d: Disk, target: Option<string>, temporary: Option<string>, renames: nat): Disk {
    d.(target := target, temporary := temporary, calls := d.calls + 1, renames := d.renames + renames,
       seen := d.seen + [target])
  }

  function RenameFate(d: Disk, faults: Faults): Fate {
    if d.temporary.None? then Fails else faults(d.calls)
  }

  function Rename(d: Disk, faults: Faults): Disk {
    if RenameFate(d, faults).Works? then After(d, d.temporary, None, 1) else After(d, d.target, d.temporary, 1)
  }

  /** `access`: a fault reads as absence. */
  function Exists(d: Disk, faults: Faults): bool {
    d.target.Some? && faults(d.calls).Works?
  }

  function Look(d: Disk): Disk {
    After(d, d.target, d.temporary, 0)
  }

  function Remove(d: Disk, faults: Faults): Disk {
    After(d, if faults(d.calls).Works? then None else d.target, d.temporary, 0)
  }

  function RemoveTemporary(d: Disk, faults: Faults): Disk {
    After(d, d.target, if faults(d.calls).Works? then None else d.temporary, 0)
  }

  function Sleep(d: Disk, ms: int): Disk {
    d.(slept := d.slept + ms)
  }

  /** What one attempt leaves: success, an error that is thrown at once, or a reason to try again. */
  function Attempt(d: Disk, faults: Faults): (Disk, Fate) {
    var d1 := Rename(d, faults);
    if !RenameFate(d, faults).Busy? then (d1, RenameFate(d, faults))
    else
      var d2 := Look(d1);
      if !Exists(d1, faults) then (d2, Busy)
      else
        var d3 := Remove(d2, faults);
        if !faults(d2.calls).Works? then (d3, faults(d2.calls))
        else (Rename(d3, faults), RenameFate(d3, faults))
  }

  /** `replaceWithRetry` from attempt number `attempt` on. */
  function Replace(d: Disk, faults: Faults, attempt: nat, retries: int, delay: int): (Disk, Outcome)
    decreases retries - attempt
  {
    if attempt > retries then (d, Threw)
    else
      var (next, fate) := Attempt(d, faults);
      match fate
      case Works => (next, Written)
      case Fails => (next, Threw)
      case Busy =>
        if attempt >= retries then (next, Threw)
        else Replace(Sleep(next, delay * (attempt + 1)), faults, attempt + 1, retries, delay)
  }

  /** `writeFileAtomic`; `partial` is what a failing write leaves in the temporary file. */
  function Write(d: Disk, faults: Faults, content: string, partial: Option<string>, retries: int, delay: int)
    : (Disk, Outcome)
  {
    var d1 := Look(d);
    if !faults(d.calls).Works? then (d1, Threw)
    else if d1.temporary.Some? || !faults(d1.calls).Works? then
      var d2 := After(d1, d1.target, if d1.temporary.Some? then d1.temporary else partial, 0);
      (RemoveTemporary(d2, faults), Threw)
    else
      var (d2, outcome) := Replace(After(d1, d1.target, Some(content), 0), faults, 0, retries, delay);
      if outcome.Written? then (d2, Written) else (RemoveTemporary(d2, faults), Threw)
  }

  // The class

  class AtomicWriter {
    var target: Option<string>
    var temporary: Option<string>
    var calls: nat
    var renames: nat
    var slept: int
    var seen: seq<Option<string>>
    const faults: Faults

    function Now(): Disk
      reads this
    {
      Disk(target, temporary, calls, renames, slept, seen)
    }

    constructor (target: Option<string>, faults: Faults)
      ensures Now() == Disk(target, None, 0, 0, 0, []) && this.faults == faults
    {
      this.target, temporary, calls, renames, slept, seen := target, None, 0, 0, 0, [];
      this.faults := faults;
    }

    method Settle(target: Option<string>, temporary: Option<string>, renames: nat)
      modifies this
      ensures Now() == After(old(Now()), target, temporary, renames)
    {
      this.target, this.temporary, calls := target, temporary, calls + 1;
      this.renames := this.renames + renames;
      seen := seen + [target];
    }

    method RenameOver() returns (fate: Fate)
      modifies this
      ensures Now() == Rename(old(Now()), faults) && fate == RenameFate(old(Now()), faults)
    {
      fate := RenameFate(Now(), faults);
      if fate.Works? {
        Settle(temporary, None, 1);
      } else {
        Settle(target, temporary, 1);
      }
    }

    /** The retry loop. */
    method ReplaceWithRetry(retries: int, delay: int) returns (outcome: Outcome)
      modifies this
      ensures (Now(), outcome) == Replace(old(Now()), faults, 0, retries, delay)
    {
      hide After, Rename, RenameFate;
      var attempt := 0;
      while attempt <= retries
        invariant attempt >= 0
        invariant Replace(Now(), faults, attempt, retries, delay) == Replace(old(Now()), faults, 0, retries, delay)
        decreases retries - attempt
      {
        ghost var before := Now();
        var fate := RenameOver();
        if fate.Works? {
          return Written;
        }
        if fate.Fails? {
          return Threw;
        }
        var present := Exists(Now(), faults);
        Settle(target, temporary, 0);
        if present {
          var removal := faults(calls);
          Settle(if removal.Works? then None else target, temporary, 0);
          fate := removal;
          if removal.Works? {
            fate := RenameOver();
          }
        }
        assert (Now(), fate) == Attempt(before, faults);
        if fate.Works? {
          return Written;
        }
        if fate.Fails? {
          return Threw;
        }
        if attempt >= retries {
          break;
        }
        slept := slept + delay * (attempt + 1);
        attempt := attempt + 1;
      }
      return Threw;
    }

    method WriteFileAtomic(content: string, partial: Option<string>, retries: int, delay: int)
      returns (outcome: Outcome)
      modifies this
      ensures (Now(), outcome) == Write(old(Now()), faults, content, partial, retries, delay)
    {
      hide Replace, Attempt, Rename;
      var made := faults(calls);
      Settle(target, temporary, 0);
      if !made.Works? {
        return Threw;
      }
      var occupied, fate := temporary.Some?, faults(calls);
      if occupied || !fate.Works? {
        Settle(target, if occupied then temporary else partial, 0);
        outcome := Threw;
      } else {
        Settle(target, Some(content), 0);
        outcome := ReplaceWithRetry(retries, delay);
      }
      if outcome.Threw? {
        Settle(target, if faults(calls).Works? then None else temporary, 0);
      }
    }
  }

  // What the loop promises

  /** Between two moments the target only ever held what it held, nothing, or `content`. */
  predicate OnlyOldAbsentNew(before: Disk, after: Disk, content: Option<string>) {
    && before.seen <= after.seen
    && (forall k :: |before.seen| <= k < |after.seen| ==> after.seen[k] in {before.target, None, content})
    && after.target in {before.target, None, content}
  }

  lemma AttemptSafe(d: Disk, faults: Faults)
    requires d.temporary.Some?
    ensures var (after, fate) := Attempt(d, faults);
      && OnlyOldAbsentNew(d, after, d.temporary)
      && (if fate.Works? then after.target == d.temporary && after.temporary == None
          else after.target in {d.target, None} && after.temporary == d.temporary)
      && after.renames <= d.renames + 2 && after.slept == d.slept
      && after.calls >= d.calls + (if fate.Busy? then 2 else 1)
  {
  }

  lemma {:induction false} ReplaceSafe(d: Disk, faults: Faults, attempt: nat, retries: int, delay: int)
    requires d.temporary.Some?
    ensures var (after, outcome) := Replace(d, faults, attempt, retries, delay);
      && OnlyOldAbsentNew(d, after, d.temporary)
      && (if outcome.Written? then after.target == d.temporary && after.temporary == None
          else after.target in {d.target, None} && after.temporary == d.temporary)
      && after.calls >= d.calls
    decreases retries - attempt
  {
    hide Attempt;
    if attempt <= retries {
      AttemptSafe(d, faults);
      var (next, fate) := Attempt(d, faults);
      if fate.Busy? && attempt < retries {
        ReplaceSafe(Sleep(next, delay * (attempt + 1)), faults, attempt + 1, retries, delay);
      }
    }
  }

  /** The sum of the first `n` delays, in units of the base delay. */
  function Triangle(n: nat): nat {
    n * (n + 1) / 2
  }

  lemma TriangleStep(n: nat, delay: int)
    ensures Triangle(n + 1) == Triangle(n) + n + 1
    ensures delay * Triangle(n + 1) == delay * Triangle(n) + delay * (n + 1)
  {
    assert (n + 1) * (n + 2) == n * (n + 1) + 2 * (n + 1);
    assert Triangle(n + 1) == Triangle(n) + (n + 1);
    assert delay * (Triangle(n) + (n + 1)) == delay * Triangle(n) + delay * (n + 1);
  }

  /** At most two renames an attempt; the sleeps are exactly `delay`, `2 * delay`, ... up to the last retry. */
  lemma {:induction false} ReplaceBounded(d: Disk, faults: Faults, attempt: nat, retries: int, delay: int)
    returns (k: nat)
    requires d.temporary.Some?
    ensures var (after, _) := Replace(d, faults, attempt, retries, delay);
      && after.renames <= d.renames + 2 * (if attempt <= retries then retries + 1 - attempt else 0)
      && attempt <= k && (k <= retries || k == attempt)
      && after.slept - d.slept == delay * Triangle(k) - delay * Triangle(attempt)
    decreases retries - attempt
  {
    hide Attempt, Triangle;
    k := attempt;
    if attempt <= retries {
      AttemptSafe(d, faults);
      var (next, fate) := Attempt(d, faults);
      if fate.Busy? && attempt < retries {
        TriangleStep(attempt, delay);
        k := ReplaceBounded(Sleep(next, delay * (attempt + 1)), faults, attempt + 1, retries, delay);
      }
    }
  }

  /** Sleeping is bounded by the sum of all delays, whatever happens. */
  lemma SleepBounded(d: Disk, faults: Faults, retries: nat, delay: nat)
    requires d.temporary.Some?
    ensures var (after, _) := Replace(d, faults, 0, retries, delay);
      d.slept <= after.slept <= d.slept + delay * Triangle(retries)
  {
    hide Replace;
    assert delay * Triangle(0) == 0;
    hide Triangle;
    var k := ReplaceBounded(d, faults, 0, retries, delay);
    TriangleGrows(k, retries);
    ProductGrows(delay, Triangle(k), Triangle(retries));
  }

  lemma {:induction false} TriangleGrows(a: nat, b: nat)
    requires a <= b
    ensures Triangle(a) <= Triangle(b)
  {
    if a < b {
      TriangleGrows(a, b - 1);
      TriangleStep(b - 1, 0);
    }
  }

  lemma ProductGrows(delay: nat, a: nat, b: nat)
    requires a <= b
    ensures 0 <= delay * a <= delay * b
  {
  }

  /** Safety of a whole write: the target never holds a partial text, a normal return leaves the new text
      and no temporary file, and a failing one leaves the old text or nothing. */
  lemma WriteSafe(d: Disk, faults: Faults, content: string, partial: Option<string>, retries: int, delay: int)
    ensures var (after, outcome) := Write(d, faults, content, partial, retries, delay);
      && OnlyOldAbsentNew(d, after, Some(content))
      && (if outcome.Written? then after.target == Some(content) && after.temporary == None
          else after.target in {d.target, None})
      && (outcome.Threw? && d.temporary.None? ==>
          after.calls > 0 && (faults(after.calls - 1).Works? ==> after.temporary == None))
  {
    hide Replace;
    var d1 := Look(d);
    ReplaceSafe(After(d1, d1.target, Some(content), 0), faults, 0, retries, delay);
  }

  /** A write gets through when the faults are retryable and stop before the last attempt: each attempt
      but the last makes at least two calls. */
  lemma {:induction false} RetriesOutlastFaults(d: Disk, faults: Faults, attempt: nat, retries: nat, delay: int)
    requires d.temporary.Some? && attempt <= retries
    requires forall c: nat :: d.calls <= c ==> !faults(c).Fails?
    requires forall c: nat :: d.calls + 2 * (retries - attempt) <= c ==> faults(c).Works?
    ensures Replace(d, faults, attempt, retries, delay).1.Written?
    decreases retries - attempt
  {
    AttemptSafe(d, faults);
    var (next, fate) := Attempt(d, faults);
    assert attempt == retries ==> faults(d.calls).Works?;
    if fate.Busy? {
      RetriesOutlastFaults(Sleep(next, delay * (attempt + 1)), faults, attempt + 1, retries, delay);
    }
  }

  // When the old file is lost, told from the fates of the calls alone

  /** The attempt whose first call is number `c` finds its rename busy, sees the target and removes it. */
  predicate RemovedAt(faults: Faults, c: nat) {
    faults(c).Busy? && faults(c + 1).Works? && faults(c + 2).Works?
  }

  /** The first call of the next attempt, where this one leaves the target alone and the loop goes on: the target
      was not seen, or its removal was busy. */
  function NextAttempt(faults: Faults, c: nat): Option<nat> {
    if !faults(c).Busy? then None
    else if !faults(c + 1).Works? then Some(c + 2)
    else if faults(c + 2).Busy? then Some(c + 3)
    else None
  }

  /** Of the renames `c`, `c + 2`, ... of `n` attempts without a target, the first that is not busy works. */
  predicate PlacedLater(faults: Faults, c: nat, n: nat) {
    exists i :: 0 <= i < n && faults(c + 2 * i).Works? && forall j :: 0 <= j < i ==> faults(c + 2 * j).Busy?
  }

  /** Among `n` attempts from call `c` on, one removes the target, its second rename does not work, and no later
      rename puts the new text in place. */
  predicate FatesLose(faults: Faults, c: nat, n: nat)
    decreases n
  {
    n > 0
    && if RemovedAt(faults, c) then
         faults(c + 3).Fails? || (faults(c + 3).Busy? && !PlacedLater(faults, c + 4, n - 1))
       else
         NextAttempt(faults, c).Some? && FatesLose(faults, NextAttempt(faults, c).value, n - 1)
  }

  function AttemptsLeft(attempt: nat, retries: int): nat {
    if attempt <= retries then retries + 1 - attempt else 0
  }

  lemma PlacedStep(faults: Faults, c: nat, n: nat)
    requires n > 0
    ensures PlacedLater(faults, c, n) <==> faults(c).Works? || (faults(c).Busy? && PlacedLater(faults, c + 2, n - 1))
  {
    if PlacedLater(faults, c, n) {
      PlacedRest(faults, c, n);
    }
    if faults(c).Works? {
      assert faults(c + 2 * 0).Works?;
    } else if faults(c).Busy? && PlacedLater(faults, c + 2, n - 1) {
      PlacedEarlier(faults, c, n);
    }
  }

  lemma PlacedRest(faults: Faults, c: nat, n: nat)
    requires PlacedLater(faults, c, n)
    ensures faults(c).Works? || (faults(c).Busy? && PlacedLater(faults, c + 2, n - 1))
  {
    var i :| 0 <= i < n && faults(c + 2 * i).Works? && forall j :: 0 <= j < i ==> faults(c + 2 * j).Busy?;
    if i > 0 {
      assert faults(c + 2 * 0).Busy?;
      assert faults(c + 2 + 2 * (i - 1)).Works?;
      forall j | 0 <= j < i - 1
        ensures faults(c + 2 + 2 * j).Busy?
      {
        assert faults(c + 2 * (j + 1)).Busy?;
      }
    }
  }

  lemma PlacedEarlier(faults: Faults, c: nat, n: nat)
    requires n > 0 && faults(c).Busy? && PlacedLater(faults, c + 2, n - 1)
    ensures PlacedLater(faults, c, n)
  {
    var i :| 0 <= i < n - 1 && faults(c + 2 + 2 * i).Works? && forall j :: 0 <= j < i ==> faults(c + 2 + 2 * j).Busy?;
    assert faults(c + 2 * (i + 1)).Works?;
    forall j | 0 <= j < i + 1
      ensures faults(c + 2 * j).Busy?
    {
      if j > 0 {
        assert faults(c + 2 + 2 * (j - 1)).Busy?;
      }
    }
  }

  /** Without a target an attempt is one rename and one look. */
  lemma AbsentAttempt(d: Disk, faults: Faults)
    requires d.temporary.Some? && d.target.None?
    ensures var (next, fate) := Attempt(d, faults);
      && fate == faults(d.calls) && next.target == (if fate.Works? then d.temporary else None)
      && (fate.Busy? ==> next.calls == d.calls + 2)
  {
  }

  lemma {:induction false} AbsentLoop(d: Disk, faults: Faults, attempt: nat, retries: int, delay: int)
    requires d.temporary.Some? && d.target.None?
    ensures Replace(d, faults, attempt, retries, delay).0.target.None?
       <==> !PlacedLater(faults, d.calls, AttemptsLeft(attempt, retries))
    decreases retries - attempt
  {
    hide Attempt, PlacedLater;
    if attempt <= retries {
      AttemptSafe(d, faults);
      AbsentAttempt(d, faults);
      PlacedStep(faults, d.calls, AttemptsLeft(attempt, retries));
      var (next, fate) := Attempt(d, faults);
      if fate.Busy? && attempt < retries {
        AbsentLoop(Sleep(next, delay * (attempt + 1)), faults, attempt + 1, retries, delay);
      } else {
        NoAttempts(faults, d.calls + 2);
      }
    } else {
      NoAttempts(faults, d.calls);
    }
  }

  lemma NoAttempts(faults: Faults, c: nat)
    ensures !PlacedLater(faults, c, 0)
  {
  }

  /** What an attempt does to a target that is there, by the fates of its calls. */
  lemma PresentAttempt(d: Disk, faults: Faults)
    requires d.temporary.Some? && d.target.Some?
    ensures var (next, fate) := Attempt(d, faults);
      if RemovedAt(faults, d.calls) then
        && fate == faults(d.calls + 3) && next.calls == d.calls + 4
        && next.target == (if fate.Works? then d.temporary else None)
      else
        && next.target.Some?
        && (fate.Busy? <==> NextAttempt(faults, d.calls).Some?)
        && (fate.Busy? ==> next.calls == NextAttempt(faults, d.calls).value)
  {
  }

  /** The old file is lost, with nothing in its place, if and only if the fates of the calls lose it. */
  lemma {:induction false} LossExactly(d: Disk, faults: Faults, attempt: nat, retries: int, delay: int)
    requires d.temporary.Some? && d.target.Some?
    ensures Replace(d, faults, attempt, retries, delay).0.target.None?
       <==> FatesLose(faults, d.calls, AttemptsLeft(attempt, retries))
    decreases retries - attempt
  {
    hide Attempt, PlacedLater, RemovedAt, NextAttempt;
    if attempt <= retries {
      AttemptSafe(d, faults);
      PresentAttempt(d, faults);
      var (next, fate) := Attempt(d, faults);
      var rest := Sleep(next, delay * (attempt + 1));
      if fate.Busy? && attempt < retries {
        if RemovedAt(faults, d.calls) {
          AbsentLoop(rest, faults, attempt + 1, retries, delay);
        } else {
          LossExactly(rest, faults, attempt + 1, retries, delay);
        }
      } else {
        NoAttempts(faults, d.calls + 4);
      }
    }
  }

  /** The same for a whole write: its first two calls, the directory and the temporary file, must work. */
  lemma WriteLosesExactly(d: Disk, faults: Faults, content: string, partial: Option<string>, retries: int, delay: int)
    requires d.target.Some? && d.temporary.None?
    ensures Write(d, faults, content, partial, retries, delay).0.target.None?
       <==> faults(d.calls).Works? && faults(d.calls + 1).Works?
            && FatesLose(faults, d.calls + 2, AttemptsLeft(0, retries))
  {
    hide Replace, FatesLose;
    var d1 := Look(d);
    LossExactly(After(d1, d1.target, Some(content), 0), faults, 0, retries, delay);
  }

  /** Among `n` attempts from call `c` on, one puts the new text in place: by its rename, or after removing the target,
      by its second rename or a later one. */
  predicate FatesPlace(faults: Faults, c: nat, n: nat)
    decreases n
  {
    n > 0
    && if faults(c).Works? then true
       else if RemovedAt(faults, c) then
         faults(c + 3).Works? || (faults(c + 3).Busy? && PlacedLater(faults, c + 4, n - 1))
       else
         NextAttempt(faults, c).Some? && FatesPlace(faults, NextAttempt(faults, c).value, n - 1)
  }

  /** Without a target the new text is written if and only if of the renames the first that is not busy works. */
  lemma {:induction false} AbsentWritten(d: Disk, faults: Faults, attempt: nat, retries: int, delay: int)
    requires d.temporary.Some? && d.target.None?
    ensures Replace(d, faults, attempt, retries, delay).1.Written?
       <==> PlacedLater(faults, d.calls, AttemptsLeft(attempt, retries))
    decreases retries - attempt
  {
    ReplaceSafe(d, faults, attempt, retries, delay);
    AbsentLoop(d, faults, attempt, retries, delay);
    hide Replace, PlacedLater;
  }

  /** With a target it is written if and only if the fates of the calls place it. So a write ends written, lost, or with
      the old file as it was, and which of them is told from the fates alone. */
  lemma {:induction false} WrittenExactly(d: Disk, faults: Faults, attempt: nat, retries: int, delay: int)
    requires d.temporary.Some? && d.target.Some?
    ensures Replace(d, faults, attempt, retries, delay).1.Written?
       <==> FatesPlace(faults, d.calls, AttemptsLeft(attempt, retries))
    decreases retries - attempt
  {
    hide Attempt, PlacedLater, RemovedAt, NextAttempt;
    if attempt <= retries {
      AttemptSafe(d, faults);
      PresentAttempt(d, faults);
      FirstRename(d, faults);
      var (next, fate) := Attempt(d, faults);
      var rest := Sleep(next, delay * (attempt + 1));
      if fate.Busy? && attempt < retries {
        if RemovedAt(faults, d.calls) {
          AbsentWritten(rest, faults, attempt + 1, retries, delay);
        } else {
          WrittenExactly(rest, faults, attempt + 1, retries, delay);
        }
      } else {
        NoAttempts(faults, d.calls + 4);
      }
    }
  }

  lemma FirstRename(d: Disk, faults: Faults)
    requires d.temporary.Some?
    ensures faults(d.calls).Works? ==> Attempt(d, faults).1.Works? && !RemovedAt(faults, d.calls)
    ensures !faults(d.calls).Works? && !RemovedAt(faults, d.calls) ==> !Attempt(d, faults).1.Works?
  {
  }

  /** The same for a whole write. */
  lemma WriteWrittenExactly(d: Disk, faults: Faults, content: string, partial: Option<string>, retries: int,
                            delay: int)
    requires d.target.Some? && d.temporary.None?
    ensures Write(d, faults, content, partial, retries, delay).1.Written?
       <==> faults(d.calls).Works? && faults(d.calls + 1).Works?
            && FatesPlace(faults, d.calls + 2, AttemptsLeft(0, retries))
  {
    hide Replace, FatesPlace;
    var d1 := Look(d);
    WrittenExactly(After(d1, d1.target, Some(content), 0), faults, 0, retries, delay);
  }

  /** Both texts can be gone: the old file is removed, every later rename is refused, and the temporary
      file is cleaned up. */
  lemma BothTextsCanBeLost(text: string, content: string)
    ensures exists faults: Faults ::
      Write(Disk(Some(text), None, 0, 0, 0, []), faults, content, None, 0, 30).0.(seen := [])
        == Disk(None, None, 7, 2, 0, [])
  {
    var faults: Faults := n => if n == 2 || n == 5 then Busy else Works;
    var d := Disk(Some(text), None, 0, 0, 0, []);
    var d2 := After(Look(d), Some(text), Some(content), 0);
    assert Attempt(d2, faults).1.Busy?;
    assert Write(d, faults, content, None, 0, 30).0.(seen := []) == Disk(None, None, 7, 2, 0, []);
  }
}
