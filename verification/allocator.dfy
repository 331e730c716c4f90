/** Identifier allocation (`getNextTaskId` in script.js): a task identifier is
    a two-letter category prefix followed by a decimal sequence number padded
    to at least two digits. The number is one more than the largest number
    already used in the category by a live task, recomputed from the live
    tasks on every call; no counter is kept. */
module IdAllocator {
  import opened Wrappers
  import opened JsText
  import opened Tasks

  const FunctionalPrefix := "FT"
  const TechnicalPrefix := "TT"

  /** The prefix of a category: functional team tasks are `FT`, technical
      team tasks `TT`. */
  function PrefixFor(isFunctionalTeam: bool): (p: string)
    ensures |p| == 2
    ensures p == FunctionalPrefix <==> isFunctionalTeam
    ensures !isFunctionalTeam ==> p == TechnicalPrefix
  {
    if isFunctionalTeam then FunctionalPrefix else TechnicalPrefix
  }

  /** `s.slice(k)` for a non-negative `k`: empty when `s` is shorter. */
  function SliceFrom(s: string, k: nat): string {
    if k <= |s| then s[k..] else []
  }

  /** What one task contributes to the scan: the number `parseInt` reads
      after the first two characters of a non-empty string identifier that
      starts with the category prefix. A task with no identifier, a
      non-string identifier, another prefix or a suffix that reads as `NaN`
      contributes nothing. */
  function SuffixNumber(t: Task, isFunctionalTeam: bool): Option<int> {
    match IdOf(t)
    case Str(s) =>
      if Truthy(Str(s)) && StartsWith(s, PrefixFor(isFunctionalTeam))
      then ParseInt(SliceFrom(s, 2))
      else None
    case _ => None
  }

  /** The value of `maxId` once the scan has visited every task: 0, raised to
      each contributed number that exceeds it, visiting tasks in array
      order. */
  function MaxSuffix(tasks: seq<Task>, isFunctionalTeam: bool): nat {
    if |tasks| == 0 then 0
    else
      var m := MaxSuffix(tasks[..|tasks| - 1], isFunctionalTeam);
      match SuffixNumber(tasks[|tasks| - 1], isFunctionalTeam)
      case Some(v) => if v > m then v as nat else m
      case None => m
  }

  /** No live task of the category contributes more than `maxId`. */
  lemma {:induction false} MaxSuffixIsUpperBound(tasks: seq<Task>, isFunctionalTeam: bool)
    ensures forall i :: 0 <= i < |tasks| && SuffixNumber(tasks[i], isFunctionalTeam).Some? ==>
              SuffixNumber(tasks[i], isFunctionalTeam).value <= MaxSuffix(tasks, isFunctionalTeam)
    decreases |tasks|
  {
    if |tasks| > 0 {
      var front := tasks[..|tasks| - 1];
      MaxSuffixIsUpperBound(front, isFunctionalTeam);
      assert forall i :: 0 <= i < |front| ==> front[i] == tasks[i];
    }
  }

  /** A positive `maxId` is the number of some live task, so `maxId` is the
      largest contributed number, or 0 when none is positive. */
  lemma {:induction false} MaxSuffixIsAttained(tasks: seq<Task>, isFunctionalTeam: bool)
    requires MaxSuffix(tasks, isFunctionalTeam) > 0
    ensures exists i :: 0 <= i < |tasks| && SuffixNumber(tasks[i], isFunctionalTeam) == Some(MaxSuffix(tasks, isFunctionalTeam))
  {
    var n := |tasks|;
    var front := tasks[..n - 1];
    if SuffixNumber(tasks[n - 1], isFunctionalTeam) != Some(MaxSuffix(tasks, isFunctionalTeam)) {
      assert MaxSuffix(tasks, isFunctionalTeam) == MaxSuffix(front, isFunctionalTeam);
      MaxSuffixIsAttained(front, isFunctionalTeam);
      var i :| 0 <= i < |front| && SuffixNumber(front[i], isFunctionalTeam) == Some(MaxSuffix(front, isFunctionalTeam));
      assert front[i] == tasks[i];
    }
  }

  /** The identifier `prefix + String(n).padStart(2, '0')`: it starts with
      the category prefix, its suffix is all digits and reads back as `n`,
      and the suffix is the decimal rendering of `n` padded on the left with
      `0` to two characters and never cut (`7` gives `07`, `123` gives
      `123`). */
  function FormatTaskId(isFunctionalTeam: bool, n: nat): (id: string)
    ensures StartsWith(id, PrefixFor(isFunctionalTeam))
    ensures |id| >= 4 && AllDigits(id[2..])
    ensures ParseInt(id[2..]) == Some(n)
    ensures EndsWith(id, ToDecimal(n))
    ensures |id| == 2 + (if |ToDecimal(n)| < 2 then 2 else |ToDecimal(n)|)
    ensures forall i :: 2 <= i < |id| - |ToDecimal(n)| ==> id[i] == '0'
  {
    var d := ToDecimal(n);
    var digits := PadStart(d, 2, '0');
    ParsePaddedDecimal(n, 2);
    PrefixKeepsSuffix(PrefixFor(isFunctionalTeam), digits, d);
    PrefixFor(isFunctionalTeam) + digits
  }

  /** Putting a two-character prefix in front of a string keeps the string
      from position 2 on, and keeps whatever it ends with. */
  lemma PrefixKeepsSuffix(p: string, digits: string, d: string)
    requires |p| == 2 && EndsWith(digits, d)
    ensures StartsWith(p + digits, p)
    ensures (p + digits)[2..] == digits
    ensures EndsWith(p + digits, d)
    ensures forall i :: 2 <= i < |p + digits| ==> (p + digits)[i] == digits[i - 2]
  {
    var id := p + digits;
    assert id[2..] == digits;
    assert id[|id| - |d|..] == digits[|digits| - |d|..];
  }

  /** `getNextTaskId(isFunctionalTeam)`: the category prefix followed by
      `String(maxId + 1).padStart(2, '0')`. The result starts with the
      prefix, reads back as `maxId + 1`, and differs from the identifier of
      every live task. */
  function NextTaskId(tasks: seq<Task>, isFunctionalTeam: bool): (id: string)
    ensures StartsWith(id, PrefixFor(isFunctionalTeam))
    ensures |id| >= 4 && AllDigits(id[2..])
    ensures ParseInt(id[2..]) == Some(MaxSuffix(tasks, isFunctionalTeam) + 1)
    ensures forall i :: 0 <= i < |tasks| ==> IdOf(tasks[i]) != Str(id)
  {
    var id := FormatTaskId(isFunctionalTeam, MaxSuffix(tasks, isFunctionalTeam) + 1);
    AllocatedIdIsFresh(tasks, isFunctionalTeam, id);
    id
  }

  /** The case of `NumberedIdIsFresh` the allocator uses: a suffix that reads
      as exactly `maxId + 1`. */
  lemma AllocatedIdIsFresh(tasks: seq<Task>, isFunctionalTeam: bool, id: string)
    requires StartsWith(id, PrefixFor(isFunctionalTeam)) && |id| >= 2
    requires ParseInt(id[2..]) == Some(MaxSuffix(tasks, isFunctionalTeam) + 1)
    ensures forall i :: 0 <= i < |tasks| ==> IdOf(tasks[i]) != Str(id)
  {
    NumberedIdIsFresh(tasks, isFunctionalTeam, id);
  }

  /** An identifier with the category prefix whose suffix reads as more than
      `maxId` is not the identifier of any live task. */
  lemma NumberedIdIsFresh(tasks: seq<Task>, isFunctionalTeam: bool, id: string)
    requires StartsWith(id, PrefixFor(isFunctionalTeam)) && |id| >= 2
    requires ParseInt(id[2..]).Some? && ParseInt(id[2..]).value > MaxSuffix(tasks, isFunctionalTeam)
    ensures forall i :: 0 <= i < |tasks| ==> IdOf(tasks[i]) != Str(id)
  {
    MaxSuffixIsUpperBound(tasks, isFunctionalTeam);
    assert SliceFrom(id, 2) == id[2..];
  }

  /** A task whose identifier is a string with the category prefix
      contributes what `parseInt` reads after the prefix. */
  lemma PrefixedSuffix(t: Task, isFunctionalTeam: bool, id: string)
    requires IdOf(t) == Str(id)
    requires StartsWith(id, PrefixFor(isFunctionalTeam))
    ensures SuffixNumber(t, isFunctionalTeam) == ParseInt(id[2..])
  {
    assert SliceFrom(id, 2) == id[2..];
  }

  /** Storing a task that contributes nothing leaves `maxId` as it was. */
  lemma MaxSuffixAppendNothing(tasks: seq<Task>, isFunctionalTeam: bool, t: Task)
    requires SuffixNumber(t, isFunctionalTeam) == None
    ensures MaxSuffix(tasks + [t], isFunctionalTeam) == MaxSuffix(tasks, isFunctionalTeam)
  {
    var all := tasks + [t];
    assert all[..|all| - 1] == tasks;
  }

  /** Storing a task whose number exceeds `maxId` raises `maxId` to it. */
  lemma MaxSuffixAppendAbove(tasks: seq<Task>, isFunctionalTeam: bool, t: Task, v: nat)
    requires SuffixNumber(t, isFunctionalTeam) == Some(v)
    requires v > MaxSuffix(tasks, isFunctionalTeam)
    ensures MaxSuffix(tasks + [t], isFunctionalTeam) == v
  {
    var all := tasks + [t];
    assert all[..|all| - 1] == tasks;
  }

  /** An identifier of one category contributes nothing to the other. */
  lemma OtherCategoryIgnores(id: string, isFunctionalTeam: bool, t: Task)
    requires StartsWith(id, PrefixFor(isFunctionalTeam))
    requires IdOf(t) == Str(id)
    ensures SuffixNumber(t, !isFunctionalTeam) == None
  {
    assert id[0] == PrefixFor(isFunctionalTeam)[0] != PrefixFor(!isFunctionalTeam)[0];
  }

  /** Allocating and then storing the new task moves its category on by
      exactly one and leaves the other category as it was; so, without
      deletions, the numbers a category hands out are 1, 2, 3, ... with no
      repeats. */
  lemma AllocationAdvances(tasks: seq<Task>, isFunctionalTeam: bool, t: Task)
    requires IdOf(t) == Str(NextTaskId(tasks, isFunctionalTeam))
    ensures MaxSuffix(tasks + [t], isFunctionalTeam) == MaxSuffix(tasks, isFunctionalTeam) + 1
    ensures MaxSuffix(tasks + [t], !isFunctionalTeam) == MaxSuffix(tasks, !isFunctionalTeam)
  {
    var id := NextTaskId(tasks, isFunctionalTeam);
    var v: nat := MaxSuffix(tasks, isFunctionalTeam) + 1;
    assert ParseInt(id[2..]) == Some(v);
    PrefixedSuffix(t, isFunctionalTeam, id);
    assert SuffixNumber(t, isFunctionalTeam) == Some(v);
    MaxSuffixAppendAbove(tasks, isFunctionalTeam, t, v);
    OtherCategoryIgnores(id, isFunctionalTeam, t);
    MaxSuffixAppendNothing(tasks, !isFunctionalTeam, t);
  }

  /** Once the allocated identifier is stored, the next allocation in the
      same category reads as `maxId + 2`. */
  lemma AllocationAfterAllocation(tasks: seq<Task>, isFunctionalTeam: bool, t: Task)
    requires IdOf(t) == Str(NextTaskId(tasks, isFunctionalTeam))
    ensures ParseInt(NextTaskId(tasks + [t], isFunctionalTeam)[2..]) == Some(MaxSuffix(tasks, isFunctionalTeam) + 2)
  {
    AllocationAdvances(tasks, isFunctionalTeam, t);
  }
}
