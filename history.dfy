/**
 * Undo/redo over snapshots of the step list. `history` and `future` are newest-first stacks;
 * `history` keeps at most MAX_HISTORY snapshots, dropping the oldest.
 */
module History {
  import opened Records

  const MAX_HISTORY: nat := 50

  type Snapshot = seq<StepRow>

  /** The editing session's undo state: the current list and the two stacks. */
  datatype Session = Session(steps: Snapshot, history: seq<Snapshot>, future: seq<Snapshot>)

  /** `[snapshot, ...history].slice(0, MAX_HISTORY)`. */
  function Pushed(h: seq<Snapshot>, current: Snapshot): (r: seq<Snapshot>)
    ensures |r| == if |h| < MAX_HISTORY then |h| + 1 else MAX_HISTORY
    ensures 1 <= |r| <= MAX_HISTORY
    ensures r[0] == current
    ensures forall k :: 1 <= k < |r| ==> r[k] == h[k - 1]
  {
    ([current] + h)[..if |h| < MAX_HISTORY then |h| + 1 else MAX_HISTORY]
  }

  /** A structural edit: pushHistory, then the list becomes `next`; the redo branch is dropped. */
  function Record(s: Session, next: Snapshot): (r: Session)
    ensures r.future == [] && 1 <= |r.history| <= MAX_HISTORY && r.history[0] == s.steps
  {
    Session(next, Pushed(s.history, s.steps), [])
  }

  /** undo: with an empty history nothing changes; otherwise the newest snapshot comes back and
      the current list goes onto `future`. */
  function Undo(s: Session): (r: Session)
    ensures s.history == [] ==> r == s
    ensures |s.history| <= MAX_HISTORY ==> |r.history| <= MAX_HISTORY
  {
    if s.history == [] then s
    else Session(s.history[0], s.history[1..], [s.steps] + s.future)
  }

  /** redo: with an empty future nothing changes; otherwise the newest future list comes back and
      the current list is pushed onto the bounded history. */
  function Redo(s: Session): (r: Session)
    ensures s.future == [] ==> r == s
    ensures |s.history| <= MAX_HISTORY ==> |r.history| <= MAX_HISTORY
  {
    if s.future == [] then s
    else Session(s.future[0], Pushed(s.history, s.steps), s.future[1..])
  }

  /** Undo followed by redo is the identity while the history is within its bound. */
  lemma UndoThenRedo(s: Session)
    requires s.history != [] && |s.history| <= MAX_HISTORY
    ensures Redo(Undo(s)) == s
  {
    var u := Undo(s);
    assert Pushed(u.history, u.steps) == [s.history[0]] + s.history[1..];
  }

  /** Redo followed by undo restores the list and the redo stack; the history comes back whole
      unless it was full, in which case redo evicted its oldest snapshot. */
  lemma RedoThenUndo(s: Session)
    requires s.future != []
    ensures Undo(Redo(s)).steps == s.steps && Undo(Redo(s)).future == s.future
    ensures |s.history| < MAX_HISTORY ==> Undo(Redo(s)) == s
    ensures |s.history| >= MAX_HISTORY ==> Undo(Redo(s)).history == s.history[..MAX_HISTORY - 1]
  {
    var r := Redo(s);
    assert r.history[1..] == s.history[..|r.history| - 1];
    assert [s.future[0]] + s.future[1..] == s.future;
  }

  /** The session after the edits `e`, applied oldest first. */
  function ApplyEdits(s: Session, e: seq<Snapshot>): Session
    decreases |e|
  {
    if e == [] then s else Record(ApplyEdits(s, e[..|e| - 1]), e[|e| - 1])
  }

  /** The session after `n` undos. */
  function UndoTimes(s: Session, n: nat): Session
    decreases n
  {
    if n == 0 then s else UndoTimes(Undo(s), n - 1)
  }

  function Reverse<T>(x: seq<T>): (r: seq<T>)
    ensures |r| == |x|
  {
    if x == [] then [] else Reverse(x[1..]) + [x[0]]
  }

  lemma {:induction false} ReverseSnoc<T>(x: seq<T>, y: T)
    ensures Reverse(x + [y]) == [y] + Reverse(x)
  {
    if x != [] {
      assert (x + [y])[1..] == x[1..] + [y];
      ReverseSnoc(x[1..], y);
    }
  }

  lemma {:induction false} ReverseReverse<T>(x: seq<T>)
    ensures Reverse(Reverse(x)) == x
  {
    if x != [] {
      ReverseSnoc(Reverse(x[1..]), x[0]);
      ReverseReverse(x[1..]);
    }
  }

  /** The first `m` snapshots of `h` (all of them when there are fewer). */
  function Keep(h: seq<Snapshot>, m: nat): seq<Snapshot>
  {
    if |h| <= m then h else h[..m]
  }

  /** Pushing onto a history of the shape the edits build keeps that shape, one shorter in its
      old part when the bound is reached. */
  lemma PushOnto(y: Snapshot, x: seq<Snapshot>, c: Snapshot, h: seq<Snapshot>, m: nat)
    requires 1 <= m && |x| + 1 + m == MAX_HISTORY
    ensures Pushed(x + [c] + Keep(h, m), y) == [y] + x + [c] + Keep(h, m - 1)
  {
    var l := x + [c] + Keep(h, m);
    if |h| < m {
      assert Keep(h, m) == h == Keep(h, m - 1);
      assert Pushed(l, y) == [y] + l;
    } else {
      assert Keep(h, m - 1) == Keep(h, m)[..m - 1];
      assert Pushed(l, y) == ([y] + l)[..MAX_HISTORY];
    }
  }

  /** After n edits (1 <= n <= MAX_HISTORY) the history holds, newest first, the list before each
      edit, then as much of the old history as still fits. */
  lemma {:induction false} ApplyEditsShape(s: Session, e: seq<Snapshot>)
    requires 1 <= |e| <= MAX_HISTORY
    ensures ApplyEdits(s, e) ==
      Session(e[|e| - 1], Reverse(e[..|e| - 1]) + [s.steps] + Keep(s.history, MAX_HISTORY - |e|), [])
    decreases |e|
  {
    var n := |e|;
    if n == 1 {
      assert e[..0] == [];
      assert ApplyEdits(s, e[..0]) == s;
      assert Pushed(s.history, s.steps) == [s.steps] + Keep(s.history, MAX_HISTORY - 1);
    } else {
      var e0 := e[..n - 1];
      ApplyEditsShape(s, e0);
      var y := e[n - 2];
      var x := Reverse(e[..n - 2]);
      var a := ApplyEdits(s, e0);
      assert a == Session(y, x + [s.steps] + Keep(s.history, MAX_HISTORY - (n - 1)), []) by {
        assert e0[..n - 2] == e[..n - 2] && e0[n - 2] == y;
      }
      assert Reverse(e0) == [y] + x by {
        assert e0 == e[..n - 2] + [y];
        ReverseSnoc(e[..n - 2], y);
      }
      PushOnto(y, x, s.steps, s.history, MAX_HISTORY - (n - 1));
      assert ApplyEdits(s, e) == Record(a, e[n - 1]);
    }
  }

  /** Undoing as many times as there are snapshots on top of `rest` pops exactly those. */
  lemma {:induction false} UndoPops(c: Snapshot, st: seq<Snapshot>, rest: seq<Snapshot>, f: seq<Snapshot>)
    requires st != []
    ensures UndoTimes(Session(c, st + rest, f), |st|) ==
      Session(st[|st| - 1], rest, Reverse(st[..|st| - 1]) + [c] + f)
    decreases |st|
  {
    var u := Undo(Session(c, st + rest, f));
    assert u == Session(st[0], st[1..] + rest, [c] + f);
    if |st| > 1 {
      UndoPops(st[0], st[1..], rest, [c] + f);
      var x := st[..|st| - 1];
      assert x[1..] == st[1..][..|st[1..]| - 1];
      assert Reverse(x) == Reverse(x[1..]) + [st[0]];
    } else {
      assert st[..0] == [];
    }
  }

  /** n structural edits (n <= MAX_HISTORY) followed by n undos bring back the starting list; the
      redo stack then holds the edited lists, newest first, and the old history is kept as far as
      it fitted beside the n snapshots. */
  lemma EditsThenUndos(s: Session, e: seq<Snapshot>)
    requires 1 <= |e| <= MAX_HISTORY
    ensures UndoTimes(ApplyEdits(s, e), |e|) ==
      Session(s.steps, Keep(s.history, MAX_HISTORY - |e|), e)
  {
    var n := |e|;
    ApplyEditsShape(s, e);
    var st := Reverse(e[..n - 1]) + [s.steps];
    var rest := Keep(s.history, MAX_HISTORY - n);
    UndoPops(e[n - 1], st, rest, []);
    assert st[..n - 1] == Reverse(e[..n - 1]);
    ReverseReverse(e[..n - 1]);
    assert e[..n - 1] + [e[n - 1]] == e;
  }

  /** `k` pushes of the same snapshot `c` onto `h`. */
  function PushedTimes(h: seq<Snapshot>, c: Snapshot, k: nat): seq<Snapshot>
    decreases k
  {
    if k == 0 then h else Pushed(PushedTimes(h, c, k - 1), c)
  }

  /** `k` edits made within one handler, each computed from the list the handler started with:
      every pushHistory pushes that list, and the last edit's list `next` is the one kept. */
  function RecordStale(s: Session, next: Snapshot, k: nat): Session
    requires k >= 1
  {
    Session(next, PushedTimes(s.history, s.steps, k), [])
  }

  /** `n` copies of `x`. */
  function Repeat(x: Snapshot, n: nat): (r: seq<Snapshot>)
    ensures |r| == n && forall j :: 0 <= j < n ==> r[j] == x
  {
    seq(n, j => x)
  }

  /** `k` stale edits are the same as `k - 1` edits that leave the list as it was, then the edit
      to `next`. */
  lemma {:induction false} StaleEditsAreEdits(s: Session, next: Snapshot, k: nat)
    requires k >= 1
    ensures RecordStale(s, next, k) == ApplyEdits(s, Repeat(s.steps, k - 1) + [next])
    decreases k
  {
    var e := Repeat(s.steps, k - 1) + [next];
    assert e[..|e| - 1] == Repeat(s.steps, k - 1);
    if k == 1 {
      assert ApplyEdits(s, []) == s;
    } else {
      StaleEditsAreEdits(s, s.steps, k - 1);
      assert Repeat(s.steps, k - 2) + [s.steps] == Repeat(s.steps, k - 1);
    }
  }

  /** After `k` stale edits (1 <= k <= MAX_HISTORY) the first undo already brings back the list
      the handler started with, the next `k - 1` undos bring it back again, and `k` undos in all
      are needed to reach the history from before the handler. */
  lemma StaleEditsUndo(s: Session, next: Snapshot, k: nat)
    requires 1 <= k <= MAX_HISTORY
    ensures Undo(RecordStale(s, next, k)).steps == s.steps
    ensures UndoTimes(RecordStale(s, next, k), k) ==
      Session(s.steps, Keep(s.history, MAX_HISTORY - k), Repeat(s.steps, k - 1) + [next])
  {
    StaleEditsAreEdits(s, next, k);
    EditsThenUndos(s, Repeat(s.steps, k - 1) + [next]);
  }
}
