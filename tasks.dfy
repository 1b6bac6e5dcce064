/**
 * One worker's task bookkeeping, as values.
 *
 * A worker record of the source holds four parallel arrays (`promiseUuid`,
 * `promises`, `resolves`, `rejectes`), one slot per registered task in
 * registration order, and three maps from task id to the promise, resolver
 * and rejecter of the task registered last under that id. Here:
 *  - `ids` and `promises` are the first two arrays;
 *  - `open[i]` is `resolves[i] != null`: the source always nulls `resolves[i]`
 *    and `rejectes[i]` together, so one flag stands for both;
 *  - `index` maps a task id to the slot whose promise, resolver and rejecter
 *    the three id-keyed maps hold (they always point into the same slot);
 *  - `plain[i]` says whether `promises[i]` is the promise the slot's resolver
 *    settles. For a task registered with a chain or a callback the stored
 *    promise is a derived one that the JavaScript runtime settles later; the
 *    registry's resolver does not touch it.
 *
 * A JavaScript promise is a settle-once state; calling a resolver of an
 * already-settled promise has no effect.
 */
module Tasks {
  import opened Wrappers

  type Id = string

  /**
   * A non-thenable value handed to a resolver or a rejecter (`undefined` when
   * omitted). A thenable handed to a resolver would be adopted rather than
   * stored, and is not modelled.
   */
  datatype Value = Undefined | Data(payload: string)

  datatype Promise = Pending | Fulfilled(value: Value) | Rejected(reason: Value)

  /** A call of one of a task's two completion functions. */
  datatype Settlement = Fulfil(data: Value) | Fail(data: Value)

  /** The state a pending promise moves to under `s`, the data being a non-thenable value. */
  function SettledBy(s: Settlement): (p: Promise)
    ensures !p.Pending?
  {
    match s
    case Fulfil(v) => Fulfilled(v)
    case Fail(v) => Rejected(v)
  }

  /** Calling a resolver or rejecter: only a pending promise changes. */
  function SettleWith(p: Promise, s: Settlement): Promise {
    if p.Pending? then SettledBy(s) else p
  }

  /** A promise settles once: a second completion changes nothing. */
  lemma SettleOnce(p: Promise, s: Settlement, s': Settlement)
    ensures !SettleWith(p, s).Pending?
    ensures SettleWith(SettleWith(p, s), s') == SettleWith(p, s)
  {
  }

  datatype Worker = Worker(
    ids: seq<Id>,
    promises: seq<Promise>,
    open: seq<bool>,
    plain: seq<bool>,
    index: map<Id, nat>)

  /** The record `create` stores: every array and map empty. */
  const Empty: Worker := Worker([], [], [], [], map[])

  /**
   * The worker invariant: the arrays run in parallel; every id maps to the
   * LAST slot registered under it; and a plain task is pending exactly while
   * its slot is open, that is, until the registry calls its resolver or
   * rejecter with a (non-thenable) value.
   */
  ghost predicate WellFormed(wk: Worker) {
    && |wk.promises| == |wk.ids|
    && |wk.open| == |wk.ids|
    && |wk.plain| == |wk.ids|
    && IndexedLast(wk.ids, wk.index)
    && PlainTracked(wk.promises, wk.open, wk.plain)
  }

  /** Every id maps to the last slot registered under it, and only registered ids are mapped. */
  ghost predicate IndexedLast(ids: seq<Id>, index: map<Id, nat>) {
    && (forall i | 0 <= i < |ids| :: ids[i] in index && i <= index[ids[i]])
    && (forall t | t in index :: index[t] < |ids| && ids[index[t]] == t)
  }

  /** A plain task is pending exactly while its slot is open. */
  ghost predicate PlainTracked(promises: seq<Promise>, open: seq<bool>, plain: seq<bool>)
    requires |open| == |promises| && |plain| == |promises|
  {
    forall i | 0 <= i < |promises| && plain[i] :: open[i] <==> promises[i].Pending?
  }

  lemma EmptyWellFormed()
    ensures WellFormed(Empty)
  {
  }

  /** `promiseObj[t]`: the promise of the task registered last under `t`. */
  function Lookup(wk: Worker, t: Id): (r: Option<Promise>)
    requires WellFormed(wk)
    ensures r.Some? <==> t in wk.ids
    ensures r.Some? ==> exists i | 0 <= i < |wk.ids| ::
      && wk.ids[i] == t && r.value == wk.promises[i]
      && forall j | i < j < |wk.ids| :: wk.ids[j] != t
  {
    if t in wk.index then Some(wk.promises[wk.index[t]]) else None
  }

  /** The registration bookkeeping of `addPromise`: one more slot, open, and the id maps updated. */
  function Register(wk: Worker, t: Id, plain: bool): (r: Worker)
    requires WellFormed(wk)
    ensures WellFormed(r)
    ensures r.ids == wk.ids + [t] && r.promises == wk.promises + [Pending]
    ensures r.open == wk.open + [true] && r.plain == wk.plain + [plain]
    ensures Lookup(r, t) == Some(Pending)
    ensures forall u | u != t :: Lookup(r, u) == Lookup(wk, u)
  {
    Worker(wk.ids + [t], wk.promises + [Pending], wk.open + [true], wk.plain + [plain], wk.index[t := |wk.ids|])
  }

  /** The lowest open slot, if any: the slot the bare-id `resolve` and `reject` loops pick. */
  function FirstOpen(open: seq<bool>): (r: Option<nat>)
    ensures r.None? <==> forall j | 0 <= j < |open| :: !open[j]
    ensures r.Some? ==> r.value < |open| && open[r.value] && forall j | 0 <= j < r.value :: !open[j]
  {
    if open == [] then None
    else if open[0] then Some(0)
    else match FirstOpen(open[1..])
      case None => None
      case Some(k) => Some(k + 1)
  }

  /**
   * Completing slot `i`: its resolver and rejecter are nulled out and the one
   * chosen by `s` is called, which settles the stored promise of a plain task.
   */
  function Complete(wk: Worker, i: nat, s: Settlement): (r: Worker)
    requires WellFormed(wk) && i < |wk.ids|
    ensures WellFormed(r)
    ensures r.ids == wk.ids && r.plain == wk.plain && r.index == wk.index
  {
    var p := if wk.plain[i] then SettleWith(wk.promises[i], s) else wk.promises[i];
    wk.(open := wk.open[i := false], promises := wk.promises[i := p])
  }

  /** What completing an open slot does, and that nothing else changes. */
  lemma CompleteOpen(wk: Worker, i: nat, s: Settlement)
    requires WellFormed(wk) && i < |wk.ids| && wk.open[i]
    ensures var r := Complete(wk, i, s);
      && !r.open[i]
      && (wk.plain[i] ==> r.promises[i] == SettledBy(s))
      && forall j | 0 <= j < |wk.ids| && j != i :: r.open[j] == wk.open[j] && r.promises[j] == wk.promises[j]
  {
  }

  /**
   * Completing a slot that is already closed changes nothing: the repeated
   * resolver call hits a settled promise and the slot stays closed.
   */
  lemma {:induction false} CompleteClosed(wk: Worker, i: nat, s: Settlement)
    requires WellFormed(wk) && i < |wk.ids| && !wk.open[i]
    ensures Complete(wk, i, s) == wk
  {
    var r := Complete(wk, i, s);
    assert r.open == wk.open;
    assert r.promises == wk.promises by {
      if wk.plain[i] {
        assert !wk.promises[i].Pending?;
      }
    }
  }

  /** Completing a slot twice is completing it once, whatever the second call's data. */
  lemma CompleteIdempotent(wk: Worker, i: nat, s: Settlement, s': Settlement)
    requires WellFormed(wk) && i < |wk.ids|
    ensures Complete(Complete(wk, i, s), i, s') == Complete(wk, i, s)
  {
    CompleteClosed(Complete(wk, i, s), i, s');
  }

  /** The loop of `resolveAll` / `rejectAll` after its first `n` rounds. */
  function CompleteUpTo(wk: Worker, n: nat, s: Settlement): (r: Worker)
    requires WellFormed(wk) && n <= |wk.ids|
    ensures WellFormed(r)
    ensures r.ids == wk.ids && r.plain == wk.plain && r.index == wk.index
  {
    if n == 0 then wk
    else
      var prev := CompleteUpTo(wk, n - 1, s);
      if prev.open[n - 1] then Complete(prev, n - 1, s) else prev
  }

  /**
   * After `n` rounds the first `n` slots are closed, each that was open holds
   * a plain task settled by `s`, and the remaining slots are untouched.
   */
  lemma {:induction false} CompleteUpToEffect(wk: Worker, n: nat, s: Settlement)
    requires WellFormed(wk) && n <= |wk.ids|
    ensures var r := CompleteUpTo(wk, n, s);
      && (forall i | 0 <= i < n :: !r.open[i])
      && (forall i | 0 <= i < n :: r.promises[i] == if wk.open[i] && wk.plain[i] then SettledBy(s) else wk.promises[i])
      && (forall i | n <= i < |wk.ids| :: r.open[i] == wk.open[i] && r.promises[i] == wk.promises[i])
  {
    if n > 0 {
      CompleteUpToEffect(wk, n - 1, s);
      var prev := CompleteUpTo(wk, n - 1, s);
      if prev.open[n - 1] {
        CompleteOpen(prev, n - 1, s);
      }
    }
  }

  /** `resolveAll` / `rejectAll` on one worker: every open slot completed with the same data. */
  function CompleteAll(wk: Worker, s: Settlement): (r: Worker)
    requires WellFormed(wk)
    ensures WellFormed(r)
  {
    CompleteUpTo(wk, |wk.ids|, s)
  }

  /**
   * After `resolveAll`, no slot is open and no plain task is pending; each task
   * that was open is settled with the given data, each that was closed is untouched.
   */
  lemma CompleteAllSettles(wk: Worker, s: Settlement)
    requires WellFormed(wk)
    ensures var r := CompleteAll(wk, s);
      && r.ids == wk.ids && r.index == wk.index
      && (forall i | 0 <= i < |wk.ids| :: !r.open[i])
      && (forall i | 0 <= i < |wk.ids| && wk.plain[i] :: !r.promises[i].Pending?)
      && (forall i | 0 <= i < |wk.ids| && wk.open[i] && wk.plain[i] :: r.promises[i] == SettledBy(s))
      && (forall i | 0 <= i < |wk.ids| && !(wk.open[i] && wk.plain[i]) :: r.promises[i] == wk.promises[i])
  {
    CompleteUpToEffect(wk, |wk.ids|, s);
  }

  /** A second `resolveAll` or `rejectAll` finds nothing open and changes nothing. */
  lemma {:induction false} CompleteAllIdempotent(wk: Worker, s: Settlement, s': Settlement)
    requires WellFormed(wk)
    ensures CompleteAll(CompleteAll(wk, s), s') == CompleteAll(wk, s)
  {
    var r := CompleteAll(wk, s);
    var r' := CompleteAll(r, s');
    CompleteAllSettles(wk, s);
    CompleteUpToEffect(r, |r.ids|, s');
    assert r'.open == r.open;
    assert r'.promises == r.promises;
  }

  /** One entry of `join`'s result: the value of a fulfilled task, the reason of a rejected one. */
  function Outcome(p: Promise): Value
    requires !p.Pending?
  {
    if p.Fulfilled? then p.value else p.reason
  }

  predicate AllSettled(ps: seq<Promise>) {
    forall i | 0 <= i < |ps| :: !ps[i].Pending?
  }

  /** The `forEach` of `join`: outcomes in registration order. */
  function Outcomes(ps: seq<Promise>): (vs: seq<Value>)
    requires AllSettled(ps)
    ensures |vs| == |ps|
    ensures forall i | 0 <= i < |ps| :: vs[i] == Outcome(ps[i])
  {
    if ps == [] then [] else [Outcome(ps[0])] + Outcomes(ps[1..])
  }

  /** The state `getDetailedStatus` reports for one promise. */
  function StateName(p: Promise): (name: string)
    ensures name == "pending" <==> p.Pending?
    ensures name == "fulfilled" <==> p.Fulfilled?
    ensures name == "rejected" <==> p.Rejected?
  {
    match p
    case Pending => "pending"
    case Fulfilled(_) => "fulfilled"
    case Rejected(_) => "rejected"
  }

  /**
   * The aggregate of `getStatus`: `Promise.allSettled` over all slots, raced
   * against a sentinel. `allSettled` never rejects, so the result is
   * "pending" while some task is pending and "fulfilled" otherwise — a
   * rejected task does not make it "rejected".
   */
  function Aggregate(ps: seq<Promise>): (status: string)
    ensures status == "pending" <==> !AllSettled(ps)
    ensures status == "fulfilled" <==> AllSettled(ps)
  {
    if exists i | 0 <= i < |ps| :: ps[i].Pending? then "pending" else "fulfilled"
  }

  /** The `detail` of `getDetailedStatus`: each task id with the state of its promise. */
  function Detail(wk: Worker): (d: map<Id, string>)
    requires WellFormed(wk)
    ensures forall t :: t in d <==> t in wk.ids
    ensures forall t | t in d :: d[t] == StateName(Lookup(wk, t).value)
  {
    map t | t in wk.index :: StateName(wk.promises[wk.index[t]])
  }

  predicate DistinctIds(ids: seq<Id>) {
    forall i, j | 0 <= i < j < |ids| :: ids[i] != ids[j]
  }

  /**
   * The aggregate and the detail agree on "pending" when task ids are
   * distinct. (With a repeated id the detail shows only the later task, so
   * only one direction holds in general.)
   */
  lemma {:induction false} AggregateMatchesDetail(wk: Worker)
    requires WellFormed(wk)
    ensures "pending" in Detail(wk).Values ==> Aggregate(wk.promises) == "pending"
    ensures DistinctIds(wk.ids) && Aggregate(wk.promises) == "pending" ==> "pending" in Detail(wk).Values
  {
    var d := Detail(wk);
    if "pending" in d.Values {
      var t :| t in d && d[t] == "pending";
      assert wk.promises[wk.index[t]].Pending?;
    }
    if DistinctIds(wk.ids) && Aggregate(wk.promises) == "pending" {
      var i :| 0 <= i < |wk.promises| && wk.promises[i].Pending?;
      var t := wk.ids[i];
      assert wk.index[t] == i;
      assert d[t] == "pending";
    }
  }

  /**
   * Registering a task under an id not yet used keeps the task ids distinct.
   */
  lemma RegisterKeepsDistinct(wk: Worker, t: Id, plain: bool)
    requires WellFormed(wk) && DistinctIds(wk.ids) && t !in wk.ids
    ensures DistinctIds(Register(wk, t, plain).ids)
  {
  }

  /** Two tasks registered under `t1` and `t2`, the first fulfilled with "a", the second rejected with "err". */
  lemma {:induction false} TwoTaskState(t1: Id, t2: Id)
    requires t1 != t2
    ensures WellFormed(Register(Empty, t1, true))
    ensures
      var w1 := Register(Register(Empty, t1, true), t2, true);
      var w2 := Complete(w1, 0, Fulfil(Data("a")));
      Complete(w2, 1, Fail(Data("err")))
        == Worker([t1, t2], [Fulfilled(Data("a")), Rejected(Data("err"))], [false, false], [true, true], map[t1 := 0, t2 := 1])
  {
    EmptyWellFormed();
    var w1 := Register(Register(Empty, t1, true), t2, true);
    assert w1.index == map[t1 := 0, t2 := 1];
    assert w1.promises == [Pending, Pending] && w1.open == [true, true] && w1.plain == [true, true];
    var w2 := Complete(w1, 0, Fulfil(Data("a")));
    assert w2.promises == [Fulfilled(Data("a")), Pending] && w2.open == [false, true];
  }

  /**
   * What `join` and `getStatus` report for the promises of the worker of
   * `TwoTaskState`: ["a", "err"] in registration order, and "fulfilled"
   * (not "rejected").
   */
  lemma TwoTaskJoinAndStatus()
    ensures
      var ps := [Fulfilled(Data("a")), Rejected(Data("err"))];
      && AllSettled(ps)
      && Outcomes(ps) == [Data("a"), Data("err")]
      && Aggregate(ps) == "fulfilled"
  {
    var ps := [Fulfilled(Data("a")), Rejected(Data("err"))];
    assert AllSettled(ps);
    var vs := Outcomes(ps);
    assert vs[0] == Data("a") && vs[1] == Data("err");
  }

  /** What `getDetailedStatus` reports as detail for the worker of `TwoTaskState`. */
  lemma TwoTaskDetail(t1: Id, t2: Id)
    requires t1 != t2
    ensures
      var wk := Worker([t1, t2], [Fulfilled(Data("a")), Rejected(Data("err"))], [false, false], [true, true], map[t1 := 0, t2 := 1]);
      && WellFormed(wk)
      && t1 in Detail(wk) && t2 in Detail(wk)
      && Detail(wk)[t1] == "fulfilled" && Detail(wk)[t2] == "rejected"
  {
    var wk := Worker([t1, t2], [Fulfilled(Data("a")), Rejected(Data("err"))], [false, false], [true, true], map[t1 := 0, t2 := 1]);
    assert WellFormed(wk);
    assert Lookup(wk, t1) == Some(Fulfilled(Data("a")));
    assert Lookup(wk, t2) == Some(Rejected(Data("err")));
  }
}
