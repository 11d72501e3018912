/**
 * The editor's step-list transformations (addStep, updateStep, moveStep, removeStep and the
 * end-step lookup), as functions from the list before an edit to the list after it.
 */
module StepList {
  import opened Wrappers
  import opened Tables
  import opened Records

  /** Every step's `index` is its position in the list. */
  predicate Contiguous(s: seq<StepRow>)
  {
    forall k :: 0 <= k < |s| ==> s[k].index == k
  }

  /** No two steps are marked as the end of the process. */
  predicate AtMostOneEnd(s: seq<StepRow>)
  {
    forall a, b :: 0 <= a < |s| && 0 <= b < |s| && s[a].isEnd && s[b].isEnd ==> a == b
  }

  /** The blank step `addStep` appends at position `idx`. */
  function NewStep(pid: RowId, idx: nat): StepRow
  {
    StepRow(None, pid, idx, "", "", [], "", None, "", "", End, None, idx == 0)
  }

  /** addStep: appends a blank, not yet persisted step; it is the end step only when it is the
      first one. */
  function Appended(s: seq<StepRow>, pid: RowId): (r: seq<StepRow>)
    ensures |r| == |s| + 1 && r[..|s|] == s
    ensures r[|s|].id.None? && r[|s|].processId == pid && r[|s|].index == |s|
    ensures r[|s|].isEnd <==> s == []
    ensures r[|s|].who == "" && r[|s|].action == "" && r[|s|].tools == [] && r[|s|].details == ""
    ensures r[|s|].frequency.None? && r[|s|].outcome == "" && r[|s|].duration == ""
    ensures r[|s|].nextType == End && r[|s|].nextRef.None?
    ensures Contiguous(s) ==> Contiguous(r)
    ensures AtMostOneEnd(s) ==> AtMostOneEnd(r)
  {
    s + [NewStep(pid, |s|)]
  }

  /** `map((s, idx) => ({...s, index: idx}))`. */
  function Reindexed(s: seq<StepRow>): (r: seq<StepRow>)
    ensures |r| == |s| && Contiguous(r)
    ensures forall k {:trigger r[k]} :: 0 <= k < |s| ==> r[k] == s[k].(index := k)
    ensures AtMostOneEnd(s) ==> AtMostOneEnd(r)
  {
    seq(|s|, k requires 0 <= k < |s| => s[k].(index := k))
  }

  /** moveStep: swaps the step at `i` with its neighbour `i + dir`, then renumbers. */
  function Moved(s: seq<StepRow>, i: int, dir: int): (r: seq<StepRow>)
    requires dir == -1 || dir == 1
    requires 0 <= i < |s| && 0 <= i + dir < |s|
    ensures |r| == |s| && Contiguous(r)
    ensures r[i] == s[i + dir].(index := i) && r[i + dir] == s[i].(index := i + dir)
    ensures forall k {:trigger r[k]} :: 0 <= k < |s| && k != i && k != i + dir ==> r[k] == s[k].(index := k)
    ensures AtMostOneEnd(s) ==> AtMostOneEnd(r)
  {
    var j := i + dir;
    Reindexed(s[i := s[j]][j := s[i]])
  }

  /** Moving a step one way and then back restores a contiguous list exactly. */
  lemma MoveBackRestores(s: seq<StepRow>, i: int, dir: int)
    requires dir == -1 || dir == 1
    requires 0 <= i < |s| && 0 <= i + dir < |s|
    requires Contiguous(s)
    ensures Moved(Moved(s, i, dir), i + dir, -dir) == s
  {
    var m := Moved(s, i, dir);
    SwapBack(s, m, Moved(m, i + dir, -dir), i, i + dir);
  }

  /** Swapping positions `i` and `j` and renumbering, twice, gives back a numbered list. */
  lemma SwapBack(s: seq<StepRow>, m: seq<StepRow>, r: seq<StepRow>, i: int, j: int)
    requires Contiguous(s) && 0 <= i < |s| && 0 <= j < |s| && i != j && |m| == |s| && |r| == |s|
    requires m[i] == s[j].(index := i) && m[j] == s[i].(index := j)
    requires forall k :: 0 <= k < |s| && k != i && k != j ==> m[k] == s[k].(index := k)
    requires r[j] == m[i].(index := j) && r[i] == m[j].(index := i)
    requires forall k :: 0 <= k < |s| && k != i && k != j ==> r[k] == m[k].(index := k)
    ensures r == s
  {
    forall k | 0 <= k < |s| ensures r[k] == s[k] {
      if k != i && k != j {
        assert r[k] == m[k].(index := k);
      }
    }
  }

  /** removeStep: drops the step at `i` (nothing when `i` is not a position) and renumbers the
      rest; the survivors keep their order and every field but `index`. */
  function Removed(s: seq<StepRow>, i: int): (r: seq<StepRow>)
    ensures Contiguous(r)
    ensures 0 <= i < |s| ==> |r| == |s| - 1
    ensures 0 <= i < |s| ==> forall k {:trigger r[k]} :: 0 <= k < i ==> r[k] == s[k].(index := k)
    ensures 0 <= i < |s| ==> forall k {:trigger r[k]} :: i <= k < |r| ==> r[k] == s[k + 1].(index := k)
    ensures !(0 <= i < |s|) ==> r == Reindexed(s)
    ensures AtMostOneEnd(s) ==> AtMostOneEnd(r)
  {
    if 0 <= i < |s| then
      var rest := s[..i] + s[i + 1..];
      assert forall k :: 0 <= k < |rest| ==> rest[k] == if k < i then s[k] else s[k + 1];
      assert AtMostOneEnd(s) ==> AtMostOneEnd(rest);
      Reindexed(rest)
    else Reindexed(s)
  }

  /** A partial update of a step: `Some` fields replace the step's, `None` fields leave them. */
  datatype Patch = Patch(
    who: Option<string>,
    action: Option<string>,
    tools: Option<seq<string>>,
    details: Option<string>,
    frequency: Option<Option<Frequency>>,
    outcome: Option<string>,
    duration: Option<string>,
    nextType: Option<NextType>,
    nextRef: Option<Option<NextRef>>,
    isEnd: Option<bool>)

  function Or<T>(o: Option<T>, fallback: T): T
  {
    if o.Some? then o.value else fallback
  }

  /** `{...step, ...patch}`. */
  function Patched(s: StepRow, p: Patch): (r: StepRow)
    ensures r.id == s.id && r.processId == s.processId && r.index == s.index
  {
    s.(who := Or(p.who, s.who), action := Or(p.action, s.action), tools := Or(p.tools, s.tools),
       details := Or(p.details, s.details), frequency := Or(p.frequency, s.frequency),
       outcome := Or(p.outcome, s.outcome), duration := Or(p.duration, s.duration),
       nextType := Or(p.nextType, s.nextType), nextRef := Or(p.nextRef, s.nextRef),
       isEnd := Or(p.isEnd, s.isEnd))
  }

  /** updateStep: applies `p` to step `i`. A patch that marks the step as the end also resets
      its successor to "end" with no reference and unmarks every other step. */
  function UpdatedSteps(s: seq<StepRow>, i: int, p: Patch): (r: seq<StepRow>)
    requires 0 <= i < |s|
    ensures |r| == |s|
    ensures p.isEnd != Some(true) ==> r[i] == Patched(s[i], p)
    ensures p.isEnd == Some(true) ==> r[i] == Patched(s[i], p).(nextType := End, nextRef := None)
    ensures p.isEnd == Some(true) ==> r[i].isEnd && forall k :: 0 <= k < |s| && k != i ==> !r[k].isEnd
    ensures p.isEnd != Some(true) ==> forall k :: 0 <= k < |s| && k != i ==> r[k] == s[k]
    ensures forall k :: 0 <= k < |s| && k != i ==> r[k] == s[k].(isEnd := r[k].isEnd)
    ensures Contiguous(s) ==> Contiguous(r)
    ensures AtMostOneEnd(s) ==> AtMostOneEnd(r)
  {
    var target := Patched(s[i], p);
    if p.isEnd == Some(true) then
      seq(|s|, k requires 0 <= k < |s| =>
        if k == i then target.(nextType := End, nextRef := None) else s[k].(isEnd := false))
    else s[i := target]
  }

  /** endStepIndex: `findIndex(s => s.isEnd)`, -1 when no step is the end. */
  function FirstEndIndex(s: seq<StepRow>): (r: int)
    ensures -1 <= r < |s|
    ensures r == -1 <==> forall k :: 0 <= k < |s| ==> !s[k].isEnd
    ensures r >= 0 ==> s[r].isEnd && forall k :: 0 <= k < r ==> !s[k].isEnd
    ensures r >= 0 && AtMostOneEnd(s) ==> forall k :: 0 <= k < |s| && s[k].isEnd ==> k == r
  {
    if s == [] then -1
    else if s[0].isEnd then 0
    else
      var t := FirstEndIndex(s[1..]);
      assert forall k :: 1 <= k < |s| ==> s[k] == s[1..][k - 1];
      if t == -1 then -1 else t + 1
  }
}
