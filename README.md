# asyncWorker registry, modelled in Dafny

`asyncWorker` (src/async.js) is a browser-side registry of "workers". Each
worker is a bag of externally settled tasks. `create` makes a worker under a
random version-4 UUID. `addPromise` / `addSerialPromise` register a task and
hand back its id. `resolve` / `reject` settle one task, chosen by id or as
the first one still open. `resolveAll` / `rejectAll` / `stop` / `destroy`
settle everything. `join`, `getStatus` and `getDetailedStatus` report on the
tasks.

The model has four modules:

- `Wrappers`: `Option` (a value or `undefined`) and `Result` (a return or a
  throw).
- `Uuid`: `generateUuid` as a function of the random bytes it draws. It
  proves that every identifier has the layout of section 4.4 of RFC 4122 (the
  version-4 UUID):
  - the version digit '4' at position 14;
  - a variant digit in 8..b at position 19;
  - lower-case hex in 8-4-4-4-12 groups.

  It also proves exactly which random bits an identifier records.
- `Tasks`: one worker record as a value. There are parallel sequences of task
  ids, promise states, an `open` flag and a `plain` flag, plus the id map.
  - `open` stands for `resolves[i] != null`; `resolves` and `rejectes` are
    always nulled together.
  - The id map stands for `promiseObj` / `resolveObj` / `rejectObj`, which all
    point at the last slot registered under an id.
  - A JavaScript promise is abstracted as a settle-once state: `Pending`,
    `Fulfilled(v)` or `Rejected(r)`.

  The module holds the pure rules: the slot bookkeeping, `join`'s outcome
  mapping, and the status and detail rules.
- `AsyncWorker`: the module-level state as a class `Registry`. Its two fields
  are `workers`, standing for `asyncWorkerObj`, and `workerIds`, standing for
  `asyncWorkerObjId`.
  - The mutating operations are methods. Their loops are the source's loops,
    and their new state is stated against the pure rules.
  - The reads are functions, or methods that change nothing.

Where the code and its own comments disagree, the model follows the code:

- **Bare worker id to `resolve` / `reject`.** The comments at
  src/async.js:151 and 215 say "the last created" promise is settled. The
  loop at 188-197 / 252-261 settles the first slot that is still open.
- **Aggregate status.** The comments at src/async.js:412 and 449 list
  "rejected" as a possible aggregate status. For every worker that `create`
  made, it never occurs:
  - `Promise.allSettled` over the worker's array of promises never rejects,
    so the rejection branches at 430-432 and 480-483 cannot run for it;
  - a worker whose tasks include a rejected one reports "fulfilled".
  - The per-task detail does report "rejected".

  The exception is an id that names an inherited `Object.prototype`
  property; "## Left out" covers it.
- **Unknown worker in `addPromise` / `addSerialPromise`.** The call throws a
  TypeError while reading the missing record (lines 56, 99, 102, 122). No
  state changes. The model returns `Err(UnknownWorker)`.
- **Return value of `resolve` / `reject` with `{uuid, promiseUuid}`.** The
  given `promiseUuid` is always returned, including when:
  - the worker is unknown;
  - the task is unknown;
  - the task's slot was already closed.

  The one exception is a task id that names an inherited `Object.prototype`
  property, which "## Left out" covers.
- **Repeated ids.** Nothing checks that a generated id is new. A repeated task
  id makes the id map point at the newer slot. A repeated worker id replaces
  the stored record, and the id is then listed twice. The model keeps all of
  this and needs no freshness assumption. Distinctness is stated as a
  hypothesis where a property needs it.
- **Plain tasks.** Only a task registered with no chain and no callback is
  settled by its resolver: the resolver belongs to the promise `new Promise`
  created, and only such a task stores that promise. For the other tasks the
  model closes the slot and keeps the stored promise pending. This is
  recorded in the `plain` flag.

## Model

| member | source | states |
|---|---|---|
| Uuid.Decimal | src/async.js:15 | the text a numeric literal such as `1e7` becomes when concatenated into the template: the lead digit followed by k zeros, k+1 characters in all |
| Uuid.Nibble | src/async.js:15 | the number replacing a matched character is below 16, and at the '8' position it lies in 8..11 (variant bits 10xx) |
| Uuid.HexValue | src/async.js:15 | every lower-case hex digit is the `toString(16)` of the number read from it, a number below 16 |
| Uuid.HexRoundTrip | src/async.js:15 | reading back the digit `toString(16)` produced gives the number again |
| Uuid.Fill | src/async.js:15 | the replacement keeps the template's length |
| Uuid.FillConforms | src/async.js:15 | every output keeps the template's non-matched characters, puts a lower-case hex digit at each '0'/'1' and a variant digit at the '8' |
| Uuid.NibbleInverse | src/async.js:15 | every digit allowed at a position is produced by some random byte |
| Uuid.NibbleMasked | src/async.js:15 | the produced digit determines exactly the bits of the byte that survive the mask `15 >> (c / 4)` |
| Uuid.FillUnfill | src/async.js:15 | every string that conforms to the template is an output of the replacement |
| Uuid.UnfillFill | src/async.js:15 | reading an output back recovers the masked random bytes: nothing beyond them is read, none of them is lost |
| Uuid.TemplateCount | src/async.js:15 | the template has 31 matched characters, so one identifier draws 31 random bytes |
| Uuid.TemplateAt | src/async.js:15 | the template is 36 characters with hyphens exactly at 8, 13, 18, 23, '4' at 14, '8' at 19 and '0'/'1' elsewhere |
| Uuid.TemplateIsUuidV4 | src/async.js:15 | conforming to the template is exactly the version-4 layout of section 4.4 of RFC 4122 (both directions) |
| Uuid.GenerateUuid | src/async.js:14-16 | every generated identifier is 36 lower-case hex characters in 8-4-4-4-12 groups, with '4' at 14 and one of 8, 9, a, b at 19 |
| Uuid.GenerateUuidOnto | src/async.js:14-16 | every version-4 UUID can be generated |
| Uuid.GenerateUuidRecordsBits | src/async.js:14-16 | an identifier records exactly the masked bits of the draw that produced it |
| Uuid.GenerateUuidInjective | src/async.js:14-16 | two draws give the same identifier iff they agree on the bits the generator reads |
| Tasks.SettledBy | src/async.js:206-208 | a resolver or rejecter call moves a pending promise to a settled state |
| Tasks.SettleOnce | src/async.js:206-208 | a second resolver or rejecter call on a settled promise changes nothing |
| Tasks.EmptyWellFormed | src/async.js:29-37 | the empty record `create` stores satisfies the worker invariant |
| Tasks.Lookup | src/async.js:145 | `promiseObj[t]` is defined iff `t` was registered, and it is the promise of the last slot registered under `t` |
| Tasks.Register | src/async.js:121-129 | registration appends one slot (the id, a pending promise, an open resolver), keeps the invariant, makes the id map to the new pending promise and leaves every other id's promise unchanged |
| Tasks.FirstOpen | src/async.js:188-197 | the loop's choice: the lowest slot whose resolver is not null, and none iff every slot is closed |
| Tasks.Complete | src/async.js:199-208 | completing a slot keeps the worker invariant and leaves ids, kinds and the id map unchanged |
| Tasks.CompleteOpen | src/async.js:189-193 | completing an open slot closes it, settles a plain task with the given data, and leaves every other slot unchanged |
| Tasks.CompleteClosed | src/async.js:199-208 | completing a slot that is already closed changes nothing (`indexOf` finds no resolver, and the repeated call hits a settled promise) |
| Tasks.CompleteIdempotent | src/async.js:199-208 | completing a slot twice equals completing it once, whatever the second call's data or kind |
| Tasks.CompleteUpTo | src/async.js:291-299 | each round of the settle-all loop keeps the invariant and leaves ids, kinds and the id map unchanged |
| Tasks.CompleteUpToEffect | src/async.js:291-299 | after n rounds the first n slots are closed, the open plain tasks among them are settled with the data, and later slots are untouched |
| Tasks.CompleteAllSettles | src/async.js:277-301 | after settling all, no slot is open and no plain task is pending; open plain tasks carry the given data and everything else keeps its state |
| Tasks.CompleteAllIdempotent | src/async.js:277-301 | a second settle-all, with any data, changes nothing |
| Tasks.Outcomes | src/async.js:351-360 | one entry per task in registration order: the value of a fulfilled task, the reason of a rejected one |
| Tasks.StateName | src/async.js:464-466 | a task's reported state is "pending", "fulfilled" or "rejected" exactly as its promise is |
| Tasks.Aggregate | src/async.js:426-432 | the aggregate is "pending" iff some task is pending and "fulfilled" otherwise, so never "rejected" |
| Tasks.Detail | src/async.js:462-469 | the detail has a key for exactly the registered ids, each mapped to the state of that id's promise |
| Tasks.AggregateMatchesDetail | src/async.js:456-491 | a "pending" entry in the detail implies a "pending" aggregate; with distinct task ids the converse holds too |
| Tasks.RegisterKeepsDistinct | src/async.js:121-122 | registering a new id keeps the task ids distinct |
| Tasks.TwoTaskState | src/async.js:198-208 | two tasks, the first resolved with "a" and the second rejected with "err" by id, leave exactly the record with both slots closed and those two states |
| Tasks.TwoTaskJoinAndStatus | src/async.js:348-365 | for the promises of that worker, `join` gives ["a", "err"] and the aggregate status is "fulfilled" |
| Tasks.TwoTaskDetail | src/async.js:456-491 | for that worker, the detail maps the first id to "fulfilled" and the second to "rejected" |
| AsyncWorker.SettleStep | src/async.js:176-211 | `resolve` / `reject` keep the set of workers and every record well formed, and change no worker other than the addressed one |
| AsyncWorker.AnyTaskSettlesFirstOpen | src/async.js:185-197 | with a bare worker id, an id is returned iff the worker is known and has an open slot; it is the id of the lowest open slot, which alone is closed and settled; with no id returned nothing changes |
| AsyncWorker.OneTaskSettles | src/async.js:198-210 | with `{uuid, promiseUuid}` naming a registered task: the last slot under that id is closed; if it was open it alone changes and a plain task is settled with the data; if it was closed nothing changes. With an unknown worker or task nothing changes. The given id is returned in every case |
| AsyncWorker.OneTaskTwice | src/async.js:198-210 | with `{uuid, promiseUuid}`, the given id is always returned, and a repeated call on the same task changes nothing |
| AsyncWorker.SettleAllAsWrittenThrows | src/async.js:289-301 | as written, settle-all throws for every known worker, while a worker with an open slot would have it closed by the intended loop |
| AsyncWorker.JoinOf | src/async.js:348-365 | `join`: nothing for an unknown worker, waiting while some task is pending, else one entry per task in order (value or reason) |
| AsyncWorker.IndexOf | src/async.js:400 | `indexOf`: -1 iff absent, otherwise the first position holding the id |
| AsyncWorker.Without | src/async.js:400-403 | splicing at `indexOf` removes one element when the id is listed and nothing otherwise |
| AsyncWorker.WithoutRemovesFirst | src/async.js:400-403 | the splice removes exactly one copy of the id, its first occurrence, and keeps the elements before and after it in order |
| AsyncWorker.WithoutKeepsOthers | src/async.js:400-403 | removing a worker id keeps every other listed id |
| AsyncWorker.WithoutDistinct | src/async.js:400-403 | in a list without repeats, removing a worker id removes it entirely and keeps the list free of repeats |
| AsyncWorker.CompleteUpToNext | src/async.js:292-298 | one round of the loop completes the current slot if its resolver is not null, and otherwise skips it |
| AsyncWorker.CompleteSlots | src/async.js:291-299 | the loop over one worker's resolvers computes the settle-all of that worker |
| AsyncWorker.Registry.constructor | src/async.js:12-13 | the registry starts with no workers and an empty worker list |
| AsyncWorker.Registry.Create | src/async.js:27-40 | the new worker has an empty record under a version-4 id that is appended to the worker list; the list stays free of repeats when the id is new |
| AsyncWorker.Registry.AddPromise | src/async.js:91-130 | an unknown worker throws with nothing changed; otherwise exactly one slot, open and pending, is appended under the returned newly generated id, `getPromiseId` grows by that id at the end, and nothing else changes |
| AsyncWorker.Registry.AddSerialPromise | src/async.js:55-58 | as `addPromise`, with the new task always chained (never plain), also on a worker with no task |
| AsyncWorker.Registry.GetPromise | src/async.js:143-147 | a promise is returned iff the worker is known and the id is given and registered; it is the promise of the last slot under that id |
| AsyncWorker.Registry.Settle | src/async.js:176-211 | the shared loop and lookup of `resolve` / `reject` compute the transition of `SettleStep` |
| AsyncWorker.Registry.Resolve | src/async.js:176-211 | `resolve` is the transition of `SettleStep` with a fulfilment (its effect given by `AnyTaskSettlesFirstOpen` and `OneTaskSettles`), and keeps the worker list |
| AsyncWorker.Registry.Reject | src/async.js:240-275 | `reject` is the transition of `SettleStep` with a rejection (its effect given by `AnyTaskSettlesFirstOpen` and `OneTaskSettles`), and keeps the worker list |
| AsyncWorker.Registry.SettleAll | src/async.js:289-301 | the intended settle-all: the addressed worker's record becomes its settle-all, and nothing else changes |
| AsyncWorker.Registry.ResolveAll | src/async.js:289-301 | `resolveAll` fulfils every open slot of the worker with the data and leaves the rest alone |
| AsyncWorker.Registry.RejectAll | src/async.js:315-327 | `rejectAll` rejects every open slot of the worker with the data and leaves the rest alone |
| AsyncWorker.Registry.Join | src/async.js:348-365 | the result is `join`'s outcome, and it is waiting exactly when `getStatus` reports "pending" |
| AsyncWorker.Registry.Stop | src/async.js:383-386 | after `stop` no slot is open and no plain task is pending, so a worker of plain tasks joins at once |
| AsyncWorker.Registry.Destroy | src/async.js:397-404 | the worker is removed from the map and its first listing from the worker list, others stay listed; afterwards `getPromiseId` is empty and the status "fulfilled" |
| AsyncWorker.Registry.GetStatus | src/async.js:419-439 | "pending" iff the worker is known and some task is pending, else "fulfilled" (also for an unknown worker), never "rejected" |
| AsyncWorker.Registry.GetDetailedStatus | src/async.js:456-491 | the status of `getStatus` together with each registered id's own state; an unknown worker gives "fulfilled" and no detail |
| AsyncWorker.Registry.GetWorkerId | src/async.js:502-504 | every stored worker is listed |
| AsyncWorker.Registry.GetPromiseId | src/async.js:516-522 | nothing for an unknown worker; otherwise one id per task, each of which `getPromise` finds |

## Left out

- The Promise runtime for chained and callback tasks (src/async.js:113-120).
  The model records such a task's registration and closes its slot. Its
  stored promise stays `Pending` forever. In the source the outcome depends
  on the JavaScript job queue:
  - The closure at src/async.js:114-116 returns the variable `promise`,
    which by then holds a later promise.
  - Chained task without a callback: that variable is the promise `then`
    itself created. Once the chained promises settle, it is rejected with a
    TypeError (a chaining cycle). `addSerialPromise(w)` on an empty worker
    chains on `[undefined]` and is rejected within a microtask. The source's
    `join` and `getStatus` then count this task as settled (rejected); the
    model reports it as pending.
  - Chained task with a callback: the chain and the callback's promise wait
    on each other, so the task never settles.
  - Callback-only task: the callback's return value (or throw) becomes the
    stored promise's outcome once the resolver is called.
- AsyncWorker.Registry.AddPromise: the ids listed in `chainUuid` are not
  looked up in the model. Only their count decides whether the task is plain.
- Time in `getStatus` / `getDetailedStatus`:
  - the `setTimeout` delay;
  - the race against the sentinel object;
  - the detail and the aggregate being sampled at different instants.

  Both are read at one instant.
- `join` and `stop` return a promise that settles later. The model gives its
  outcome at the instant of the call: `Waiting` while a task is pending.
- `crypto.getRandomValues`: the random bytes are a parameter of
  `GenerateUuid`, `Create`, `AddPromise` and `AddSerialPromise`.
- The `console.log` calls at src/async.js:425 and 473.
- The top-level `asyncWorker.join(...)` at src/async.js:328-332. It runs while
  `asyncWorker` is still `undefined`, so loading the file throws there.
- Aliasing: `getWorkerId` and `getPromiseId` return the live internal arrays.
  The model returns their values.
- Promises that `destroy` settles. It settles them (src/async.js:398) before
  it deletes the record (399). Afterwards they are observable only through
  promises handed out earlier, which the model does not track.
- Worker ids that name `Object.prototype` properties. `asyncWorkerObj` is a
  plain `{}` (src/async.js:12), so an id such as "toString", "constructor"
  or "__proto__" finds a truthy inherited value. The model treats such an id
  as an unknown worker. In the source:
  - `getStatus("toString")` reports "rejected": `Promise.allSettled(undefined)`
    rejects, and the race at 426-432 passes the rejection on.
  - `getDetailedStatus` gives `{status: "rejected", detail: {}}`.
  - `join` returns a rejected promise.
  - `getPromiseId` returns `undefined`.
  - `resolve`, `reject` and `getPromise` throw a TypeError.

  Ids from `create` are UUIDs and never take these names.
- Task ids that name `Object.prototype` properties. `promiseObj`,
  `resolveObj` and `rejectObj` are plain `{}` too (src/async.js:34-36), so
  such an id finds an inherited function on a known worker. The model treats
  it as an unknown task: `GetPromise` gives `None`, and by-id `Resolve` /
  `Reject` change nothing and return the id. In the source:
  - `getPromise(w, "toString")` (145) returns the inherited function rather
    than `undefined`.
  - `resolve({uuid: w, promiseUuid: t}, data)` finds no slot (`indexOf` gives
    -1 at 201-204). It then calls the inherited function at 207 with an
    undefined receiver. For "valueOf" or "hasOwnProperty" this throws a
    TypeError, and for "__proto__" the value is not a function, so it throws
    as well. Nothing is returned. For "toString" or "constructor" the call
    has no effect and the id is returned. `reject` behaves the same at 271.

  Task ids from `addPromise` are UUIDs and never take these names.
- Thenable data. The model's `Value` is a plain value: `undefined` or a
  string. In the source, `resolve(data)` with a thenable `data`, such as
  another task's promise from `getPromise`, makes a plain task's promise
  follow `data`. This has three consequences the model does not capture:
  - The slot is closed, yet the promise can stay pending.
  - The promise can end up rejected although `resolve` was called.
  - A later `reject`, `resolveAll` or `stop` cannot change the promise. After
    such a call, `Stop`'s "no plain task is pending" does not hold in the
    source.

  `Tasks.SettledBy`, `Tasks.PlainTracked` and every contract built on them
  assume non-thenable data. A rejection takes its reason as given, thenable
  or not.
- Gruntfile.js is build and documentation tooling. It is not part of this
  model.

## Findings

| source | as written | input that shows it | evidently intended | confidence | as-written member | corrected member |
|---|---|---|---|---|---|---|
| src/async.js:289-327 | `resolveAll` and `rejectAll` test `asyncWorkerObj[uuid]` but loop over `asyncWorkerObj[uuid1]`. `uuid1` is declared only inside `resolve` and `reject`, so it throws a ReferenceError for every known worker. `stop` and `destroy` call `resolveAll` first, so they throw too, and `destroy` never removes the worker. | `w = create(); addPromise(w); resolveAll(w)` (or `stop(w)` / `destroy(w)`) | loop over the worker named by `uuid`, settling every open slot | high (not executed) | AsyncWorker.SettleAllAsWrittenThrows | AsyncWorker.Registry.SettleAll |
