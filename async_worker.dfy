/**
 * The worker registry `asyncWorker`: a module-level map from worker id to a
 * worker record (`asyncWorkerObj`) and the list of worker ids in creation
 * order (`asyncWorkerObjId`), with the operations that read and change them.
 *
 * Promise settlement is modelled through `Tasks`; waiting is replaced by a
 * snapshot: `join` reports `Waiting` while some task is pending, and the two
 * status probes read the task states at one instant.
 */
module AsyncWorker {
  import opened Wrappers
  import opened Tasks
  import Uuid

  /** What a call throws. */
  datatype Error =
    | UnknownWorker       // a TypeError: a property read on the `undefined` record of an unknown worker
    | UndeclaredVariable  // a ReferenceError: the read of the undeclared `uuid1`

  /** The `chainUuid` of `addPromise({uuid, chainUuid})`: an array of task ids, or any other single value. */
  datatype ChainArg = ChainList(ids: seq<Id>) | ChainValue(id: Option<Id>)

  /** The first argument of `addPromise`: a bare worker id, or `{uuid, chainUuid}`. */
  datatype AddTarget = ToWorker(worker: Id) | ToChain(worker: Id, chain: ChainArg)

  /**
   * The first argument of `resolve` / `reject`: a bare worker id (or an
   * object whose `promiseUuid` is `undefined`), or `{uuid, promiseUuid}`.
   */
  datatype Target = AnyTask(worker: Id) | OneTask(worker: Id, task: Id)

  /** What `join` delivers: `undefined` for an unknown worker, or the outcomes once all tasks settle. */
  datatype JoinView = NoWorker | Waiting | Joined(values: seq<Value>)

  /** The object `getDetailedStatus` delivers. */
  datatype StatusReport = StatusReport(status: string, detail: map<Id, string>)

  /** `chainPromise.length` after the argument is unpacked: one per array entry, one for any other value. */
  function ChainLength(target: AddTarget): nat {
    match target
    case ToWorker(_) => 0
    case ToChain(_, ChainList(ids)) => |ids|
    case ToChain(_, ChainValue(_)) => 1
  }

  /** Neither a chain nor a callback replaces the promise the resolver settles. */
  predicate IsPlain(target: AddTarget, hasCallback: bool) {
    ChainLength(target) == 0 && !hasCallback
  }

  ghost predicate AllWellFormed(ws: map<Id, Worker>) {
    forall w | w in ws :: WellFormed(ws[w])
  }

  /** Storing a well-formed record keeps every record well-formed. */
  lemma StoreWellFormed(ws: map<Id, Worker>, w: Id, wk: Worker)
    requires AllWellFormed(ws) && WellFormed(wk)
    ensures AllWellFormed(ws[w := wk])
  {
  }

  /**
   * `resolve` / `reject` on the worker map, returning the id they return.
   * A bare worker id completes the lowest open slot; `{uuid, promiseUuid}`
   * completes the slot the id maps to (and returns the id even when nothing
   * is found or the slot is already closed).
   */
  function SettleStep(ws: map<Id, Worker>, target: Target, s: Settlement): (res: (map<Id, Worker>, Option<Id>))
    requires AllWellFormed(ws)
    ensures AllWellFormed(res.0) && res.0.Keys == ws.Keys
    ensures forall u | u in ws && u != target.worker :: res.0[u] == ws[u]
  {
    match target
    case AnyTask(w) =>
      if w !in ws then (ws, None)
      else (match FirstOpen(ws[w].open)
        case None => (ws, None)
        case Some(i) => (ws[w := Complete(ws[w], i, s)], Some(ws[w].ids[i])))
    case OneTask(w, t) =>
      if w in ws && t in ws[w].index then (ws[w := Complete(ws[w], ws[w].index[t], s)], Some(t))
      else (ws, Some(t))
  }

  /** Slot `k` closed and, for a plain task, settled by `s`; every other slot unchanged. */
  ghost predicate SlotSettled(wk: Worker, wk': Worker, k: nat, s: Settlement)
    requires WellFormed(wk) && WellFormed(wk') && |wk'.ids| == |wk.ids| && k < |wk.ids|
  {
    && !wk'.open[k]
    && (wk.plain[k] ==> wk'.promises[k] == SettledBy(s))
    && (forall j | 0 <= j < |wk.ids| && j != k :: wk'.open[j] == wk.open[j] && wk'.promises[j] == wk.promises[j])
  }

  /**
   * With a bare worker id: an id is returned iff the worker is known and has
   * an open slot; it is the id of the lowest open slot, which is closed and
   * (for a plain task) settled by `s`; every other slot is unchanged. When no
   * id is returned nothing changes.
   */
  lemma AnyTaskSettlesFirstOpen(ws: map<Id, Worker>, w: Id, s: Settlement)
    requires AllWellFormed(ws)
    ensures SettleStep(ws, AnyTask(w), s).1.Some? <==> w in ws && exists i | 0 <= i < |ws[w].open| :: ws[w].open[i]
    ensures SettleStep(ws, AnyTask(w), s).1.None? ==> SettleStep(ws, AnyTask(w), s).0 == ws
    ensures SettleStep(ws, AnyTask(w), s).1.Some? ==> exists k | 0 <= k < |ws[w].ids| ::
      && ws[w].open[k] && (forall j | 0 <= j < k :: !ws[w].open[j])
      && SettleStep(ws, AnyTask(w), s) == (ws[w := Complete(ws[w], k, s)], Some(ws[w].ids[k]))
      && SlotSettled(ws[w], Complete(ws[w], k, s), k, s)
  {
    if w in ws && FirstOpen(ws[w].open).Some? {
      var k := FirstOpen(ws[w].open).value;
      CompleteOpen(ws[w], k, s);
      assert SlotSettled(ws[w], Complete(ws[w], k, s), k, s);
    }
  }

  /**
   * With `{uuid, promiseUuid}` naming a registered task: the slot `k` that id
   * maps to is the last one registered under it; if that slot was open, it
   * alone is closed and (for a plain task) settled by `s`; if it was already
   * closed, nothing changes. With an unknown worker or task nothing changes.
   * The given id is returned in every case.
   */
  lemma OneTaskSettles(ws: map<Id, Worker>, w: Id, t: Id, s: Settlement)
    requires AllWellFormed(ws)
    ensures SettleStep(ws, OneTask(w, t), s).1 == Some(t)
    ensures !(w in ws && t in ws[w].ids) ==> SettleStep(ws, OneTask(w, t), s).0 == ws
    ensures w in ws && t in ws[w].ids ==> exists k | 0 <= k < |ws[w].ids| ::
      && ws[w].ids[k] == t && (forall j | k < j < |ws[w].ids| :: ws[w].ids[j] != t)
      && (ws[w].open[k] ==>
            && SettleStep(ws, OneTask(w, t), s).0 == ws[w := Complete(ws[w], k, s)]
            && SlotSettled(ws[w], Complete(ws[w], k, s), k, s))
      && (!ws[w].open[k] ==> SettleStep(ws, OneTask(w, t), s).0 == ws)
  {
    if w in ws && t in ws[w].ids {
      var wk := ws[w];
      assert t in wk.index;
      var k := wk.index[t];
      assert wk.ids[k] == t;
      if wk.open[k] {
        CompleteOpen(wk, k, s);
        assert SlotSettled(wk, Complete(wk, k, s), k, s);
      } else {
        CompleteClosed(wk, k, s);
        assert ws[w := wk] == ws;
      }
    }
  }

  /**
   * With `{uuid, promiseUuid}`: the given id is always returned; a second
   * call on the same task, whatever its data or kind, changes nothing.
   */
  lemma OneTaskTwice(ws: map<Id, Worker>, w: Id, t: Id, s: Settlement, s': Settlement)
    requires AllWellFormed(ws)
    ensures SettleStep(ws, OneTask(w, t), s).1 == Some(t)
    ensures var ws' := SettleStep(ws, OneTask(w, t), s).0;
      SettleStep(ws', OneTask(w, t), s') == (ws', Some(t))
  {
    if w in ws && t in ws[w].index {
      var ws' := SettleStep(ws, OneTask(w, t), s).0;
      CompleteIdempotent(ws[w], ws[w].index[t], s, s');
      assert ws'[w := Complete(ws'[w], ws'[w].index[t], s')] == ws';
    }
  }

  /**
   * `resolveAll` / `rejectAll` as written: after the guard on `uuid`, the
   * loop reads `uuid1`, which is declared only inside `resolve` and `reject`,
   * so for a known worker they throw before changing anything (and so do
   * `stop` and `destroy`, which call `resolveAll` first).
   */
  function SettleAllAsWritten(ws: map<Id, Worker>, w: Id, s: Settlement): Result<map<Id, Worker>, Error> {
    if w in ws then Err(UndeclaredVariable) else Ok(ws)
  }

  /**
   * For a worker with an open slot, the code as written throws, while the
   * documented behaviour (`CompleteAll`) closes that slot.
   */
  lemma SettleAllAsWrittenThrows(ws: map<Id, Worker>, w: Id, s: Settlement, i: nat)
    requires AllWellFormed(ws) && w in ws && i < |ws[w].open| && ws[w].open[i]
    ensures SettleAllAsWritten(ws, w, s) == Err(UndeclaredVariable)
    ensures !CompleteAll(ws[w], s).open[i]
  {
    CompleteAllSettles(ws[w], s);
  }

  /**
   * What `join` settles to, read at one instant: nothing for an unknown
   * worker, waiting while a task is pending, and otherwise one entry per task
   * in registration order, the value of a fulfilled task or the reason of a
   * rejected one.
   */
  function JoinOf(ws: map<Id, Worker>, w: Id): (r: JoinView)
    requires AllWellFormed(ws)
    ensures r.NoWorker? <==> w !in ws
    ensures r.Waiting? <==> w in ws && exists i | 0 <= i < |ws[w].promises| :: ws[w].promises[i].Pending?
    ensures r.Joined? ==> |r.values| == |ws[w].ids|
    ensures r.Joined? ==> forall i | 0 <= i < |ws[w].promises| ::
      (ws[w].promises[i].Fulfilled? ==> r.values[i] == ws[w].promises[i].value) &&
      (ws[w].promises[i].Rejected? ==> r.values[i] == ws[w].promises[i].reason)
  {
    if w !in ws then NoWorker
    else if !AllSettled(ws[w].promises) then Waiting
    else Joined(Outcomes(ws[w].promises))
  }

  /** `asyncWorkerObjId.indexOf(x)`. */
  function IndexOf(s: seq<Id>, x: Id): (k: int)
    ensures k == -1 <==> x !in s
    ensures k != -1 ==> 0 <= k < |s| && s[k] == x && x !in s[..k]
  {
    if s == [] then -1
    else if s[0] == x then 0
    else
      var k := IndexOf(s[1..], x);
      if k == -1 then -1
      else
        assert s[..k + 1] == [s[0]] + s[1..][..k];
        k + 1
  }

  /** `asyncWorkerObjId.splice(index, 1)` where `index` is the `indexOf` of `x`, when it is not -1. */
  function Without(s: seq<Id>, x: Id): (r: seq<Id>)
    ensures x !in s ==> r == s
    ensures x in s ==> |r| == |s| - 1
  {
    var k := IndexOf(s, x);
    if k == -1 then s else s[..k] + s[k + 1..]
  }

  /**
   * What `Without` removes: exactly one copy of `x`, namely its first
   * occurrence, with the elements before and after it kept in order.
   */
  lemma WithoutRemovesFirst(s: seq<Id>, x: Id)
    requires x in s
    ensures multiset(Without(s, x)) == multiset(s) - multiset{x}
    ensures exists k | 0 <= k < |s| :: s[k] == x && x !in s[..k] && Without(s, x) == s[..k] + s[k + 1..]
  {
    var k := IndexOf(s, x);
    assert s == s[..k] + [s[k]] + s[k + 1..];
  }

  /** Removing the first occurrence of `x` keeps every other element. */
  lemma WithoutKeepsOthers(s: seq<Id>, x: Id, y: Id)
    requires y in s && y != x
    ensures y in Without(s, x)
  {
    var k := IndexOf(s, x);
    if k != -1 {
      var s' := s[..k] + s[k + 1..];
      var j :| 0 <= j < |s| && s[j] == y;
      if j < k {
        assert s'[j] == y;
      } else {
        assert s'[j - 1] == y;
      }
    }
  }

  /** In a list without repeats, removing the first occurrence of `x` removes `x` and keeps the list free of repeats. */
  lemma WithoutDistinct(s: seq<Id>, x: Id)
    requires DistinctIds(s)
    ensures DistinctIds(Without(s, x)) && x !in Without(s, x)
  {
    var k := IndexOf(s, x);
    if k != -1 {
      var s' := s[..k] + s[k + 1..];
      forall i, j | 0 <= i < j < |s'| ensures s'[i] != s'[j] {
        var i0 := if i < k then i else i + 1;
        var j0 := if j < k then j else j + 1;
        assert s'[i] == s[i0] && s'[j] == s[j0];
      }
      forall j | 0 <= j < |s'| ensures s'[j] != x {
        var j0 := if j < k then j else j + 1;
        assert s'[j] == s[j0] && j0 != k;
      }
    }
  }

  /** One more round of the `resolveAll` loop completes the next slot if it is open. */
  lemma CompleteUpToNext(wk: Worker, i: nat, s: Settlement)
    requires WellFormed(wk) && i < |wk.ids|
    ensures var p := CompleteUpTo(wk, i, s);
      CompleteUpTo(wk, i + 1, s) == if p.open[i] then Complete(p, i, s) else p
  {
  }

  /** The loop of `resolveAll` / `rejectAll` over one worker's resolvers. */
  method CompleteSlots(wk: Worker, s: Settlement) returns (r: Worker)
    requires WellFormed(wk)
    ensures r == CompleteAll(wk, s)
  {
    r := wk;
    var i := 0;
    while i < |r.open|
      invariant 0 <= i <= |wk.ids| && r == CompleteUpTo(wk, i, s)
    {
      CompleteUpToNext(wk, i, s);
      if r.open[i] {
        r := Complete(r, i, s);
      }
      i := i + 1;
    }
  }

  class Registry {
    /** `asyncWorkerObj`: each worker's record by worker id. */
    var workers: map<Id, Worker>
    /** `asyncWorkerObjId`: the worker ids in creation order. */
    var workerIds: seq<Id>

    ghost predicate Valid()
      reads this
    {
      && AllWellFormed(workers)
      && (forall w | w in workers :: w in workerIds)
    }

    /** The registry as the module starts out: no workers. */
    constructor ()
      ensures Valid() && workers == map[] && workerIds == []
    {
      workers := map[];
      workerIds := [];
    }

    /**
     * `create`: a new empty worker under a generated identifier, appended to
     * the worker list. A worker already stored under the same identifier is
     * replaced, and the identifier is then listed twice.
     */
    method Create(rnd: seq<Uuid.Byte>) returns (w: Id)
      requires Valid() && |rnd| == Uuid.RandomBytes
      modifies this
      ensures Valid()
      ensures w == Uuid.GenerateUuid(rnd) && Uuid.IsUuidV4(w)
      ensures workers == old(workers)[w := Empty]
      ensures workerIds == old(workerIds) + [w]
      ensures DistinctIds(old(workerIds)) && w !in old(workerIds) ==> DistinctIds(workerIds)
    {
      w := Uuid.GenerateUuid(rnd);
      EmptyWellFormed();
      workers := workers[w := Empty];
      workerIds := workerIds + [w];
    }

    /**
     * `addPromise`: registers a task on a known worker under a newly generated
     * identifier and returns it; an unknown worker throws and nothing changes.
     */
    method AddPromise(target: AddTarget, hasCallback: bool, rnd: seq<Uuid.Byte>) returns (r: Result<Id, Error>)
      requires Valid() && |rnd| == Uuid.RandomBytes
      modifies this
      ensures Valid() && workerIds == old(workerIds)
      ensures target.worker !in old(workers) ==> r == Err(UnknownWorker) && workers == old(workers)
      ensures target.worker in old(workers) ==>
        && r == Ok(Uuid.GenerateUuid(rnd))
        && workers == old(workers)[target.worker := Register(old(workers)[target.worker], r.value, IsPlain(target, hasCallback))]
      ensures r.Ok? ==>
        && GetPromiseId(target.worker) == old(GetPromiseId(target.worker)) + [r.value]
        && GetPromise(target.worker, Some(r.value)) == Some(Pending)
    {
      var w := target.worker;
      if w !in workers {
        return Err(UnknownWorker);
      }
      var t := Uuid.GenerateUuid(rnd);
      workers := workers[w := Register(workers[w], t, IsPlain(target, hasCallback))];
      r := Ok(t);
    }

    /**
     * `addSerialPromise`: `addPromise` chained after the last registered task.
     * The chain argument is a single value even for a worker with no task
     * (`undefined`), so the new task is never plain.
     */
    method AddSerialPromise(w: Id, hasCallback: bool, rnd: seq<Uuid.Byte>) returns (r: Result<Id, Error>)
      requires Valid() && |rnd| == Uuid.RandomBytes
      modifies this
      ensures Valid() && workerIds == old(workerIds)
      ensures w !in old(workers) ==> r == Err(UnknownWorker) && workers == old(workers)
      ensures w in old(workers) ==>
        && r == Ok(Uuid.GenerateUuid(rnd))
        && workers == old(workers)[w := Register(old(workers)[w], r.value, false)]
    {
      if w !in workers {
        return Err(UnknownWorker);
      }
      var ids := workers[w].ids;
      var last := if |ids| == 0 then None else Some(ids[|ids| - 1]);
      r := AddPromise(ToChain(w, ChainValue(last)), hasCallback, rnd);
    }

    /** `getPromise`: the promise registered last under `t`, if both worker and id are given and known. */
    function GetPromise(w: Id, t: Option<Id>): (r: Option<Promise>)
      reads this
      requires Valid()
      ensures r.Some? <==> w in workers && t.Some? && t.value in workers[w].ids
      ensures r.Some? ==> exists i | 0 <= i < |workers[w].ids| ::
        && workers[w].ids[i] == t.value && r.value == workers[w].promises[i]
        && forall j | i < j < |workers[w].ids| :: workers[w].ids[j] != t.value
    {
      if w in workers && t.Some? then
        var wk := workers[w];
        var r := Lookup(wk, t.value);
        if r.Some? then
          assert wk.ids[wk.index[t.value]] == t.value;
          r
        else r
      else None
    }

    /**
     * The body shared by `resolve` and `reject`: the loop over `resolves`
     * for a bare worker id, or the lookup through the id maps.
     */
    method Settle(target: Target, s: Settlement) returns (r: Option<Id>)
      requires Valid()
      modifies this
      ensures Valid() && workerIds == old(workerIds)
      ensures (workers, r) == SettleStep(old(workers), target, s)
    {
      var w := target.worker;
      if target.OneTask? {
        r := Some(target.task);
        if w in workers && target.task in workers[w].index {
          workers := workers[w := Complete(workers[w], workers[w].index[target.task], s)];
        }
        return;
      }
      r := None;
      if w in workers {
        var wk := workers[w];
        var i := 0;
        while i < |wk.open|
          invariant 0 <= i <= |wk.open|
          invariant forall j | 0 <= j < i :: !wk.open[j]
        {
          if wk.open[i] {
            assert FirstOpen(wk.open) == Some(i);
            workers := workers[w := Complete(wk, i, s)];
            r := Some(wk.ids[i]);
            return;
          }
          i := i + 1;
        }
        assert FirstOpen(wk.open).None?;
      }
    }

    /** `resolve`: fulfils the chosen task with `data` and returns the id it settled or was given. */
    method Resolve(target: Target, data: Value) returns (r: Option<Id>)
      requires Valid()
      modifies this
      ensures Valid() && workerIds == old(workerIds)
      ensures (workers, r) == SettleStep(old(workers), target, Fulfil(data))
    {
      r := Settle(target, Fulfil(data));
    }

    /** `reject`: rejects the chosen task with `data` and returns the id it settled or was given. */
    method Reject(target: Target, data: Value) returns (r: Option<Id>)
      requires Valid()
      modifies this
      ensures Valid() && workerIds == old(workerIds)
      ensures (workers, r) == SettleStep(old(workers), target, Fail(data))
    {
      r := Settle(target, Fail(data));
    }

    /** The loop shared by `resolveAll` and `rejectAll` (reading `uuid` where the source reads `uuid1`). */
    method SettleAll(w: Id, s: Settlement)
      requires Valid()
      modifies this
      ensures Valid() && workerIds == old(workerIds)
      ensures workers == if w in old(workers) then old(workers)[w := CompleteAll(old(workers)[w], s)] else old(workers)
    {
      if w in workers {
        var wk := CompleteSlots(workers[w], s);
        StoreWellFormed(workers, w, wk);
        workers := workers[w := wk];
      }
    }

    /** `resolveAll`: fulfils every task whose slot is open with `data`; closed slots are left alone. */
    method ResolveAll(w: Id, data: Value)
      requires Valid()
      modifies this
      ensures Valid() && workerIds == old(workerIds)
      ensures workers == if w in old(workers) then old(workers)[w := CompleteAll(old(workers)[w], Fulfil(data))] else old(workers)
    {
      SettleAll(w, Fulfil(data));
    }

    /** `rejectAll`: rejects every task whose slot is open with `data`; closed slots are left alone. */
    method RejectAll(w: Id, data: Value)
      requires Valid()
      modifies this
      ensures Valid() && workerIds == old(workerIds)
      ensures workers == if w in old(workers) then old(workers)[w := CompleteAll(old(workers)[w], Fail(data))] else old(workers)
    {
      SettleAll(w, Fail(data));
    }

    /**
     * `join`: nothing for an unknown worker; otherwise, once every task has
     * settled, each task's value or reason in registration order. It is
     * waiting exactly while `getStatus` reports "pending".
     */
    method Join(w: Id) returns (r: JoinView)
      requires Valid()
      ensures r == JoinOf(workers, w)
      ensures r.Waiting? <==> GetStatus(w) == "pending"
    {
      if w !in workers {
        return NoWorker;
      }
      var ps := workers[w].promises;
      if exists i | 0 <= i < |ps| :: ps[i].Pending? {
        return Waiting;
      }
      var values: seq<Value> := [];
      for i := 0 to |ps|
        invariant |values| == i
        invariant forall j | 0 <= j < i :: values[j] == Outcome(ps[j])
      {
        if ps[i].Fulfilled? {
          values := values + [ps[i].value];
        } else {
          values := values + [ps[i].reason];
        }
      }
      r := Joined(values);
    }

    /**
     * `stop`: `resolveAll` with no data, then `join`. Afterwards no slot is
     * open and no plain task is pending, so a worker of plain tasks joins at once.
     */
    method Stop(w: Id) returns (r: JoinView)
      requires Valid()
      modifies this
      ensures Valid() && workerIds == old(workerIds)
      ensures workers == if w in old(workers) then old(workers)[w := CompleteAll(old(workers)[w], Fulfil(Undefined))] else old(workers)
      ensures r == JoinOf(workers, w)
      ensures w in workers ==> forall i | 0 <= i < |workers[w].ids| :: !workers[w].open[i]
      ensures w in workers ==> forall i | 0 <= i < |workers[w].ids| && workers[w].plain[i] :: !workers[w].promises[i].Pending?
      ensures w in workers && (forall i | 0 <= i < |workers[w].plain| :: workers[w].plain[i]) ==> r.Joined?
    {
      ResolveAll(w, Undefined);
      if w in workers {
        CompleteAllSettles(old(workers)[w], Fulfil(Undefined));
      }
      r := Join(w);
    }

    /**
     * `destroy`: `resolveAll` with no data, then the worker is deleted from the
     * map and its first occurrence from the worker list. Afterwards the id is
     * unknown to every operation.
     */
    method Destroy(w: Id)
      requires Valid()
      modifies this
      ensures Valid()
      ensures workers == old(workers) - {w}
      ensures workerIds == Without(old(workerIds), w)
      ensures DistinctIds(old(workerIds)) ==> DistinctIds(workerIds) && w !in workerIds
      ensures GetPromiseId(w) == [] && GetStatus(w) == "fulfilled"
    {
      ResolveAll(w, Undefined);
      workers := workers - {w};
      forall u | u in workers ensures u in Without(workerIds, w) {
        WithoutKeepsOthers(workerIds, w, u);
      }
      if DistinctIds(workerIds) {
        WithoutDistinct(workerIds, w);
      }
      var index := IndexOf(workerIds, w);
      if index != -1 {
        workerIds := workerIds[..index] + workerIds[index + 1..];
      }
    }

    /**
     * `getStatus`: "pending" while some task of the worker is pending,
     * otherwise "fulfilled" (also for an unknown worker); never "rejected".
     */
    function GetStatus(w: Id): (status: string)
      reads this
      requires Valid()
      ensures status == "pending" <==> w in workers && !AllSettled(workers[w].promises)
      ensures status == "fulfilled" <==> w !in workers || AllSettled(workers[w].promises)
      ensures status != "rejected"
    {
      if w in workers then Aggregate(workers[w].promises) else "fulfilled"
    }

    /**
     * `getDetailedStatus`: the aggregate of `getStatus` together with the
     * state of each task id's promise; an unknown worker gives "fulfilled"
     * with no detail.
     */
    method GetDetailedStatus(w: Id) returns (r: StatusReport)
      requires Valid()
      ensures r.status == GetStatus(w)
      ensures w !in workers ==> r.detail == map[]
      ensures w in workers ==> r.detail == Detail(workers[w])
    {
      if w !in workers {
        return StatusReport("fulfilled", map[]);
      }
      var wk := workers[w];
      var detail: map<Id, string> := map[];
      var rest := wk.index.Keys;
      while rest != {}
        invariant rest <= wk.index.Keys
        invariant detail.Keys == wk.index.Keys - rest
        invariant forall t | t in detail :: detail[t] == StateName(wk.promises[wk.index[t]])
        decreases rest
      {
        var t :| t in rest;
        detail := detail[t := StateName(wk.promises[wk.index[t]])];
        rest := rest - {t};
      }
      assert detail == Detail(wk);
      r := StatusReport(Aggregate(wk.promises), detail);
    }

    /** `getWorkerId`: the worker ids in creation order; every live worker is listed. */
    function GetWorkerId(): (ids: seq<Id>)
      reads this
      requires Valid()
      ensures forall w | w in workers :: w in ids
    {
      workerIds
    }

    /**
     * `getPromiseId`: a worker's task ids in registration order, each of
     * which `getPromise` finds; nothing for an unknown worker.
     */
    function GetPromiseId(w: Id): (ids: seq<Id>)
      reads this
      requires Valid()
      ensures w !in workers ==> ids == []
      ensures w in workers ==> |ids| == |workers[w].promises|
      ensures forall t | t in ids :: GetPromise(w, Some(t)).Some?
    {
      if w in workers then workers[w].ids else []
    }
  }
}
