/**
 * The discovery-and-reconciliation engine of src/bull.js: getBullQueues,
 * the bootstrap bullMain with its retries, and refresh, both guarded by
 * the `isRefreshing` flag. The module-level `isRefreshing` and
 * `queueList` are the fields of an Engine object; the calls into the
 * presentation layer (setQueues, addQueue, removeQueue) are recorded in
 * its notification log, and each call of the store's `scan` in a counter.
 */
module Bull {
  import opened Outcomes
  import opened Keys
  import opened Names
  import opened Registry

  /** One call of the engine into the presentation layer. */
  datatype Event =
    | SetQueues(queues: seq<Handle>)
    | AddQueue(queue: Handle)
    | RemoveQueue(queue: Handle)

  /** How a call of bullMain or refresh ended: returned at once because
      the flag was set, completed, or failed with an error that was caught
      and logged. */
  datatype Status = Skipped | Done | Failed(error: Error)

  /** getBullQueues after its scan: the distinct extracted names in sorted
      order, or "No queue found." when there are none. Since a key that
      does not match is kept as it is, that happens exactly when the scan
      returned no key at all. */
  function BootstrapNames(prefix: string, keys: seq<Key>): (r: Result<seq<string>>)
    ensures r.Err? <==> keys == []
    ensures r.Err? ==> r.error == NoQueueFound
    ensures r.Ok? ==> |r.value| > 0 && Distinct(r.value) && Ascending(r.value)
    ensures r.Ok? ==> forall x :: x in r.value <==> x in ExtractAll(prefix, keys)
  {
    var candidates := ExtractAll(prefix, keys);
    var names := Sort(Dedup(candidates));
    SortedNames(candidates);
    if |names| == 0 then Err(NoQueueFound) else Ok(names)
  }

  /** One call of getBullQueues against one store. */
  function Attempt(prefix: string, store: Store): Result<seq<string>>
    requires Completes(store)
  {
    match Scan(store)
    case Err(e) => Err(e)
    case Ok(keys) => BootstrapNames(prefix, keys)
  }

  predicate AllComplete(attempts: seq<Store>) {
    forall i :: 0 <= i < |attempts| ==> Completes(attempts[i])
  }

  /** Which attempts succeed, in order. */
  function Successes(prefix: string, attempts: seq<Store>): (ok: seq<bool>)
    requires AllComplete(attempts)
    ensures |ok| == |attempts|
    ensures forall j :: 0 <= j < |ok| ==> (ok[j] <==> Attempt(prefix, attempts[j]).Ok?)
  {
    seq(|attempts|, j requires 0 <= j < |attempts| => Attempt(prefix, attempts[j]).Ok?)
  }

  /** How many attempts the retry loop makes: it stops at the first
      success, and after the last attempt of its budget. */
  function Used(prefix: string, attempts: seq<Store>): (n: nat)
    requires |attempts| > 0 && AllComplete(attempts)
    ensures 1 <= n <= |attempts|
    ensures forall j :: 0 <= j < n - 1 ==> Attempt(prefix, attempts[j]).Err?
    ensures Attempt(prefix, attempts[n - 1]).Ok? || n == |attempts|
  {
    FirstSuccess(Successes(prefix, attempts), 0)
  }

  /** One more than the index of the first success at or after `i`, or the
      length when no later attempt succeeds. */
  function FirstSuccess(ok: seq<bool>, i: nat): (n: nat)
    requires i < |ok|
    ensures i < n <= |ok|
    ensures forall j :: i <= j < n - 1 ==> !ok[j]
    ensures ok[n - 1] || n == |ok|
    decreases |ok| - i
  {
    if i == |ok| - 1 || ok[i] then i + 1
    else FirstSuccess(ok, i + 1)
  }

  /** The retry loop stops after attempt `i` exactly when that attempt
      succeeded or was the last of the budget. */
  lemma {:induction false} UsedStop(prefix: string, attempts: seq<Store>, i: nat)
    requires |attempts| > 0 && AllComplete(attempts) && i < Used(prefix, attempts)
    ensures i == Used(prefix, attempts) - 1 <==> Attempt(prefix, attempts[i]).Ok? || i == |attempts| - 1
  {
  }

  /** What the retry loop resolves to: the first success, or the error of
      the last attempt. */
  function Retry(prefix: string, attempts: seq<Store>): Result<seq<string>>
    requires |attempts| > 0 && AllComplete(attempts)
  {
    Attempt(prefix, attempts[Used(prefix, attempts) - 1])
  }

  /** Number of `scan` calls made by running a scan against each store. */
  function ScanCalls(stores: seq<Store>): nat
    requires AllComplete(stores)
  {
    if stores == [] then 0
    else ScanCalls(stores[..|stores| - 1]) + FirstStop(stores[|stores| - 1]) + 1
  }

  lemma {:induction false} ScanCallsStep(stores: seq<Store>, i: nat)
    requires i < |stores| && AllComplete(stores)
    ensures AllComplete(stores[..i]) && AllComplete(stores[..i + 1])
    ensures ScanCalls(stores[..i + 1]) == ScanCalls(stores[..i]) + FirstStop(stores[i]) + 1
  {
    assert stores[..i + 1][..i] == stores[..i];
  }

  /** The presentation-layer calls of refresh's first loop. */
  function AddEvents(added: seq<Handle>): seq<Event> {
    seq(|added|, i requires 0 <= i < |added| => AddQueue(added[i]))
  }

  /** The presentation-layer calls of refresh's second loop: for each
      vanished name, the registry's handle of that name. */
  function RemoveEvents(reg: seq<Handle>, removeKeys: seq<string>): seq<Event>
    requires forall k :: k in removeKeys ==> k in NamesOf(reg)
  {
    seq(|removeKeys|, i requires 0 <= i < |removeKeys| => RemoveQueue(Find(reg, removeKeys[i])))
  }

  /** Handles appended after `reg` do not change which handle `find`
      returns for a name of `reg`. */
  lemma {:induction false} RemoveEventsAppend(reg: seq<Handle>, added: seq<Handle>, removeKeys: seq<string>)
    requires forall k :: k in removeKeys ==> k in NamesOf(reg)
    requires forall k :: k in removeKeys ==> k in NamesOf(reg + added)
    ensures RemoveEvents(reg + added, removeKeys) == RemoveEvents(reg, removeKeys)
  {
    forall i | 0 <= i < |removeKeys|
      ensures Find(reg + added, removeKeys[i]) == Find(reg, removeKeys[i])
    {
      FindAppend(reg, added, removeKeys[i]);
    }
  }

  /** A queue whose name is present both before and after refresh gets
      neither an addQueue nor a removeQueue call. */
  lemma {:induction false} SurvivorSilent(reg: seq<Handle>, uniq: seq<string>, added: seq<Handle>, h: Handle)
    requires Distinct(NamesOf(reg)) && Distinct(uniq)
    requires NamesOf(added) == Missing(uniq, NamesOf(reg))
    requires h in reg && h.name in uniq
    ensures AddQueue(h) !in AddEvents(added)
    ensures RemoveQueue(h) !in RemoveEvents(reg, Missing(NamesOf(reg), uniq))
  {
    ReconciledRegistry(reg, uniq, added);
  }

  /** One round of refresh's removal loop: the name still has its original
      handle in the filtered registry, so `find` returns that handle. */
  lemma {:induction false} RemoveStep(all: seq<Handle>, removeKeys: seq<string>, j: nat)
    requires Distinct(NamesOf(all)) && Distinct(removeKeys) && j < |removeKeys|
    requires forall k :: k in removeKeys ==> k in NamesOf(all)
    ensures removeKeys[j] in NamesOf(Drop(all, removeKeys[..j]))
    ensures Find(Drop(all, removeKeys[..j]), removeKeys[j]) == Find(all, removeKeys[j])
  {
    var h := Find(all, removeKeys[j]);
    assert removeKeys[j] !in removeKeys[..j];
    DropMembers(all, removeKeys[..j]);
    NamesOfDrop(all, removeKeys[..j]);
    FindUnique(Drop(all, removeKeys[..j]), h);
  }

  /** The registry after one more removal round. */
  lemma {:induction false} RemoveRound(all: seq<Handle>, removeKeys: seq<string>, j: nat)
    requires j < |removeKeys|
    ensures Drop(Drop(all, removeKeys[..j]), [removeKeys[j]]) == Drop(all, removeKeys[..j + 1])
  {
    DropStep(all, removeKeys[..j], removeKeys[j]);
    assert removeKeys[..j] + [removeKeys[j]] == removeKeys[..j + 1];
  }

  /** getBullQueues: scan, extract, deduplicate, sort, build one handle per
      name, and throw "No queue found." when there is none. */
  method GetBullQueues(prefix: string, store: Store) returns (r: Result<seq<Handle>>, calls: nat)
    requires Completes(store)
    ensures calls == FirstStop(store) + 1
    ensures Attempt(prefix, store).Err? ==> r == Err(Attempt(prefix, store).error)
    ensures Attempt(prefix, store).Ok? ==>
              r.Ok? && NamesOf(r.value) == Attempt(prefix, store).value
              && forall h :: h in r.value ==> fresh(h)
  {
    var keys, requested := ScanKeys(store);
    calls := |requested|;
    if keys.Err? {
      return Err(keys.error), calls;
    }
    var names := Sort(Dedup(ExtractAll(prefix, keys.value)));
    var queues: seq<Handle> := [];
    for i := 0 to |names|
      invariant NamesOf(queues) == names[..i]
      invariant forall h :: h in queues ==> fresh(h)
    {
      var queue := new Handle(names[i]);
      queues := queues + [queue];
    }
    if |queues| == 0 {
      return Err(NoQueueFound), calls;
    }
    r := Ok(queues);
  }

  /** The `backOff(() => getBullQueues(), ...)` call: one store per
      attempt of the budget; every rejection is retried until an attempt
      succeeds or the budget is spent, and the last rejection is rethrown. */
  method BackOff(prefix: string, attempts: seq<Store>) returns (r: Result<seq<Handle>>, calls: nat)
    requires |attempts| > 0 && AllComplete(attempts)
    ensures calls == ScanCalls(attempts[..Used(prefix, attempts)])
    ensures Retry(prefix, attempts).Err? ==> r == Err(Retry(prefix, attempts).error)
    ensures Retry(prefix, attempts).Ok? ==>
              r.Ok? && NamesOf(r.value) == Retry(prefix, attempts).value
              && forall h :: h in r.value ==> fresh(h)
  {
    ghost var n := Used(prefix, attempts);
    var i := 0;
    calls := 0;
    while true
      invariant i < n
      invariant calls == ScanCalls(attempts[..i])
      decreases |attempts| - i
    {
      var c;
      r, c := GetBullQueues(prefix, attempts[i]);
      ScanCallsStep(attempts, i);
      calls := calls + c;
      UsedStop(prefix, attempts, i);
      if r.Ok? || i == |attempts| - 1 {
        break;
      }
      i := i + 1;
    }
  }

  class Engine {
    /** `config.BULL_PREFIX`. */
    const prefix: string
    /** The module-level `isRefreshing` flag. */
    var isRefreshing: bool
    /** The module-level `queueList`; None is `undefined`. */
    var queueList: Option<seq<Handle>>
    /** Every setQueues, addQueue and removeQueue call made so far. */
    var notifications: seq<Event>
    /** Number of `scan` calls made so far. */
    var scanCalls: nat

    /** The registry never holds two handles of one name. */
    ghost predicate Valid()
      reads this
    {
      queueList.Some? ==> Distinct(NamesOf(queueList.value))
    }

    /** Module initialisation: the flag is false and the registry
        undefined. */
    constructor (prefix: string)
      ensures Valid() && this.prefix == prefix
      ensures !isRefreshing && queueList == None && notifications == [] && scanCalls == 0
    {
      this.prefix := prefix;
      isRefreshing := false;
      queueList := None;
      notifications := [];
      scanCalls := 0;
    }

    /** bullMain as written. On success it hands the list to the
        presentation layer with setQueues, but the `const queueList` it
        assigns shadows the module registry, which stays as it was. */
    method BullMain(attempts: seq<Store>) returns (status: Status, ghost queues: seq<Handle>)
      requires Valid() && |attempts| > 0 && AllComplete(attempts)
      modifies this
      ensures Valid()
      ensures old(isRefreshing) ==> status == Skipped && unchanged(this)
      ensures !old(isRefreshing) ==>
                !isRefreshing && queueList == old(queueList)
                && scanCalls == old(scanCalls) + ScanCalls(attempts[..Used(prefix, attempts)])
      ensures !old(isRefreshing) && Retry(prefix, attempts).Ok? ==>
                status == Done && NamesOf(queues) == Retry(prefix, attempts).value
                && (forall h :: h in queues ==> fresh(h))
                && notifications == old(notifications) + [SetQueues(queues)]
      ensures !old(isRefreshing) && Retry(prefix, attempts).Err? ==>
                status == Failed(Retry(prefix, attempts).error) && notifications == old(notifications)
    {
      queues := [];
      if isRefreshing {
        return Skipped, queues;
      }
      isRefreshing := true;
      var r, calls := BackOff(prefix, attempts);
      scanCalls := scanCalls + calls;
      if r.Ok? {
        notifications := notifications + [SetQueues(r.value)];
        queues := r.value;
        status := Done;
      } else {
        status := Failed(r.error);
      }
      isRefreshing := false;
    }

    /** bullMain as evidently intended: the bootstrap list also becomes the
        registry that refresh edits. */
    method BullMainCorrected(attempts: seq<Store>) returns (status: Status, ghost queues: seq<Handle>)
      requires Valid() && |attempts| > 0 && AllComplete(attempts)
      modifies this
      ensures Valid()
      ensures old(isRefreshing) ==> status == Skipped && unchanged(this)
      ensures !old(isRefreshing) ==>
                !isRefreshing
                && scanCalls == old(scanCalls) + ScanCalls(attempts[..Used(prefix, attempts)])
      ensures !old(isRefreshing) && Retry(prefix, attempts).Ok? ==>
                status == Done && NamesOf(queues) == Retry(prefix, attempts).value
                && (forall h :: h in queues ==> fresh(h))
                && queueList == Some(queues)
                && notifications == old(notifications) + [SetQueues(queues)]
      ensures !old(isRefreshing) && Retry(prefix, attempts).Err? ==>
                status == Failed(Retry(prefix, attempts).error)
                && queueList == old(queueList) && notifications == old(notifications)
    {
      queues := [];
      if isRefreshing {
        return Skipped, queues;
      }
      isRefreshing := true;
      var r, calls := BackOff(prefix, attempts);
      scanCalls := scanCalls + calls;
      if r.Ok? {
        queueList := Some(r.value);
        notifications := notifications + [SetQueues(r.value)];
        queues := r.value;
        status := Done;
      } else {
        status := Failed(r.error);
      }
      isRefreshing := false;
    }

    /** refresh: scan, extract, and reconcile the registry with the scanned
        names. A failed scan, or a registry that is still undefined (read
        by `queueList.map`), ends the run before any change; the flag is
        cleared in every case in which it was taken. */
    method Refresh(store: Store) returns (status: Status, ghost added: seq<Handle>)
      requires Valid() && Completes(store)
      modifies this
      ensures Valid()
      ensures old(isRefreshing) ==> status == Skipped && unchanged(this)
      ensures !old(isRefreshing) ==>
                !isRefreshing && scanCalls == old(scanCalls) + FirstStop(store) + 1
      ensures !old(isRefreshing) && Scan(store).Err? ==>
                status == Failed(StoreUnavailable)
                && queueList == old(queueList) && notifications == old(notifications)
      ensures !old(isRefreshing) && Scan(store).Ok? && old(queueList).None? ==>
                status == Failed(RegistryUndefined)
                && queueList == None && notifications == old(notifications)
      ensures !old(isRefreshing) && Scan(store).Ok? && old(queueList).Some? ==>
                var reg := old(queueList).value;
                var uniq := Dedup(ExtractAll(prefix, Scan(store).value));
                var removeKeys := Missing(NamesOf(reg), uniq);
                status == Done
                && NamesOf(added) == Missing(uniq, NamesOf(reg))
                && (forall h :: h in added ==> fresh(h))
                && queueList == Some(Reconciled(reg, uniq, added))
                && notifications == old(notifications) + AddEvents(added) + RemoveEvents(reg, removeKeys)
    {
      added := [];
      if isRefreshing {
        return Skipped, added;
      }
      isRefreshing := true;
      var keys, requested := ScanKeys(store);
      scanCalls := scanCalls + |requested|;
      if keys.Err? {
        status := Failed(keys.error);
      } else if queueList.None? {
        status := Failed(RegistryUndefined);
      } else {
        added := Reconcile(Dedup(ExtractAll(prefix, keys.value)));
        status := Done;
      }
      isRefreshing := false;
    }

    /** The body of refresh from `currentKeys` on: addKeys are the scanned
        names the registry lacks, in scan order, and each gets a new handle,
        an addQueue and a push; removeKeys are the registry names no longer
        scanned, and each gets a removeQueue of its handle and a filter. */
    method Reconcile(uniq: seq<string>) returns (ghost added: seq<Handle>)
      requires Valid() && queueList.Some? && Distinct(uniq)
      modifies this`queueList, this`notifications
      ensures Valid()
      ensures var reg := old(queueList).value;
              NamesOf(added) == Missing(uniq, NamesOf(reg))
              && (forall h :: h in added ==> fresh(h))
              && queueList == Some(Reconciled(reg, uniq, added))
              && notifications == old(notifications) + AddEvents(added)
                                  + RemoveEvents(reg, Missing(NamesOf(reg), uniq))
    {
      ghost var reg := queueList.value;
      var currentKeys := NamesOf(queueList.value);
      var addKeys := Missing(uniq, currentKeys);
      var removeKeys := Missing(currentKeys, uniq);
      added := AddQueues(addKeys);
      ReconciledRegistry(reg, uniq, added);
      NamesOfAppend(reg, added);
      DistinctAppend(currentKeys, addKeys);
      RemoveQueues(removeKeys);
      RemoveEventsAppend(reg, added, removeKeys);
      DropAppend(reg, added, removeKeys);
      forall g | g in added
        ensures g.name !in removeKeys
      {
        var k :| 0 <= k < |added| && added[k] == g;
        assert NamesOf(added)[k] == g.name;
      }
      DropNone(added, removeKeys);
    }

    /** src/bull.js:103-113: a new handle per added name, announced with addQueue
        and pushed onto the registry. */
    method AddQueues(addKeys: seq<string>) returns (ghost added: seq<Handle>)
      requires queueList.Some?
      modifies this`queueList, this`notifications
      ensures NamesOf(added) == addKeys && forall h :: h in added ==> fresh(h)
      ensures queueList == Some(old(queueList).value + added)
      ensures notifications == old(notifications) + AddEvents(added)
    {
      ghost var reg := queueList.value;
      added := [];
      assert reg + added == reg;
      for i := 0 to |addKeys|
        invariant queueList == Some(reg + added)
        invariant NamesOf(added) == addKeys[..i]
        invariant forall h :: h in added ==> fresh(h)
        invariant notifications == old(notifications) + AddEvents(added)
      {
        var queue := new Handle(addKeys[i]);
        notifications := notifications + [AddQueue(queue)];
        queueList := Some(queueList.value + [queue]);
        assert reg + (added + [queue]) == reg + added + [queue];
        added := added + [queue];
      }
    }

    /** src/bull.js:114-118: for each vanished name, removeQueue of the handle
        `find` returns, then `filter` it out of the registry. */
    method RemoveQueues(removeKeys: seq<string>)
      requires queueList.Some? && Distinct(NamesOf(queueList.value)) && Distinct(removeKeys)
      requires forall k :: k in removeKeys ==> k in NamesOf(queueList.value)
      modifies this`queueList, this`notifications
      ensures queueList == Some(Drop(old(queueList).value, removeKeys))
      ensures notifications == old(notifications) + RemoveEvents(old(queueList).value, removeKeys)
    {
      ghost var all := queueList.value;
      ghost var log := notifications;
      ghost var events: seq<Event> := [];
      assert removeKeys[..0] == [];
      DropNone(all, []);
      for j := 0 to |removeKeys|
        invariant queueList == Some(Drop(all, removeKeys[..j]))
        invariant |events| == j
        invariant forall i :: 0 <= i < j ==> events[i] == RemoveQueue(Find(all, removeKeys[i]))
        invariant notifications == log + events
      {
        var key := removeKeys[j];
        var current := queueList.value;
        RemoveStep(all, removeKeys, j);
        RemoveRound(all, removeKeys, j);
        var queue := Find(current, key);
        notifications := notifications + [RemoveQueue(queue)];
        events := events + [RemoveQueue(queue)];
        queueList := Some(Drop(current, [key]));
      }
      assert removeKeys[..|removeKeys|] == removeKeys;
      assert events == RemoveEvents(all, removeKeys);
    }
  }

  /** With the bootstrap as written, the first refresh fails at
      `queueList.map` although bootstrap succeeded: the only
      presentation-layer call ever made is bootstrap's setQueues. */
  method RefreshAfterBullMain(prefix: string, store: Store) returns (boot: Status, refresh: Status, log: seq<Event>)
    requires Completes(store) && Attempt(prefix, store).Ok?
    ensures boot == Done && refresh == Failed(RegistryUndefined)
    ensures |log| == 1 && log[0].SetQueues? && NamesOf(log[0].queues) == Attempt(prefix, store).value
  {
    var engine := new Engine(prefix);
    ghost var queues, added;
    boot, queues := engine.BullMain([store]);
    refresh, added := engine.Refresh(store);
    log := engine.notifications;
  }

  /** With the corrected bootstrap, a refresh against the same store
      completes and has nothing to add or remove. */
  method RefreshAfterBullMainCorrected(prefix: string, store: Store) returns (boot: Status, refresh: Status, log: seq<Event>)
    requires Completes(store) && Attempt(prefix, store).Ok?
    ensures boot == Done && refresh == Done
    ensures |log| == 1 && log[0].SetQueues? && NamesOf(log[0].queues) == Attempt(prefix, store).value
  {
    var engine := new Engine(prefix);
    ghost var queues, added;
    boot, queues := engine.BullMainCorrected([store]);
    ghost var reg := engine.queueList.value;
    var uniq := Dedup(ExtractAll(prefix, Scan(store).value));
    assert forall x :: x in NamesOf(reg) <==> x in uniq;
    ReconcileIdempotent(reg, uniq);
    refresh, added := engine.Refresh(store);
    assert |added| == 0;
    log := engine.notifications;
  }

  /** A second refresh against an unchanged store issues no notification
      and leaves the registry as the first one left it. */
  method RefreshTwice(engine: Engine, store: Store) returns (first: Status, second: Status, issued: nat, kept: bool)
    requires engine.Valid() && !engine.isRefreshing && engine.queueList.Some?
    requires Completes(store) && Scan(store).Ok?
    modifies engine
    ensures first == Done && second == Done && issued == 0 && kept
  {
    ghost var added;
    ghost var reg := engine.queueList.value;
    var uniq := Dedup(ExtractAll(engine.prefix, Scan(store).value));
    first, added := engine.Refresh(store);
    ReconciledRegistry(reg, uniq, added);
    ReconcileIdempotent(engine.queueList.value, uniq);
    var before := engine.queueList;
    var count := |engine.notifications|;
    second, added := engine.Refresh(store);
    issued := |engine.notifications| - count;
    kept := engine.queueList == before;
  }
}
