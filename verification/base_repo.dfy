/** BaseRepo: the document operations both entity kinds share, over a store
    that maps each document id to its document. A stored document's own Id is
    its key (WellKeyed). */
module BaseRepo {
  import opened Wrappers
  import opened Models

  type Store<T> = map<string, T>

  /** Every stored document carries its own key as its Id. */
  ghost predicate WellKeyed<T>(store: Store<T>, idOf: T -> Option<string>) {
    forall k :: k in store ==> idOf(store[k]) == Some(k)
  }

  /** GetAsync: the stored document, or null. */
  function Get<T>(store: Store<T>, id: string): (r: Option<T>)
    ensures r.Some? <==> id in store
    ensures r.Some? ==> r.value == store[id]
  {
    if id in store then Some(store[id]) else None
  }

  /** GetAllAsync(predicate): exactly the stored documents the predicate
      accepts, by id; the list order the store returns is not modelled. */
  function GetAll<T>(store: Store<T>, accept: T -> bool): (r: Store<T>)
    ensures r.Keys <= store.Keys
    ensures forall k :: k in r ==> r[k] == store[k] && accept(r[k])
    ensures forall k :: k in store && accept(store[k]) ==> k in r
  {
    map k | k in store && accept(store[k]) :: store[k]
  }

  /** AddAsync: stores the document under its own Id, or under the id the
      store generates when it has none; a document already under that id is
      replaced. Returns the new store and the document as stored. */
  function Add<T>(store: Store<T>, entity: T, idOf: T -> Option<string>,
                  withId: (T, string) -> T, generatedId: string): (r: (Store<T>, T))
    ensures var key := idOf(entity).GetOr(generatedId);
      && r.0.Keys == store.Keys + {key}
      && r.0[key] == r.1 == withId(entity, key)
      && forall k :: k in store && k != key ==> r.0[k] == store[k]
  {
    var key := idOf(entity).GetOr(generatedId);
    var stored := withId(entity, key);
    (store[key := stored], stored)
  }

  /** UpdateAsync: throws when no document has the entity's Id; otherwise
      merges the entity into the stored document (`merge(existing, incoming)`)
      and changes nothing else. */
  function Update<T>(store: Store<T>, entity: T, idOf: T -> Option<string>,
                     merge: (T, T) -> T): (r: Result<Store<T>, string>)
    ensures r.Failure? <==> idOf(entity).None? || idOf(entity).value !in store
    ensures r.Success? ==> var key := idOf(entity).value;
      && r.value.Keys == store.Keys
      && r.value[key] == merge(store[key], entity)
      && forall k :: k in store && k != key ==> r.value[k] == store[k]
  {
    match idOf(entity)
    case None => Failure("Entity with ID  does not exist.")
    case Some(key) =>
      if key !in store then Failure("Entity with ID " + key + " does not exist.")
      else Success(store[key := merge(store[key], entity)])
  }

  /** DeleteAsync: false with the store unchanged when the id is absent;
      otherwise true, with exactly that document removed. */
  function Delete<T>(store: Store<T>, id: string): (r: (bool, Store<T>))
    ensures r.0 <==> id in store
    ensures !r.0 ==> r.1 == store
    ensures r.0 ==> r.1.Keys == store.Keys - {id} && forall k :: k in r.1 ==> r.1[k] == store[k]
  {
    if id !in store then (false, store) else (true, store - {id})
  }

  /** CountAsync(). */
  function Count<T>(store: Store<T>): (n: nat)
    ensures n == |store.Keys|
    ensures n == 0 <==> store == map[]
  {
    |store|
  }

  /** CountAsync(predicate): how many stored documents the predicate accepts;
      never more than CountAsync(), and all of them exactly when every
      document is accepted. */
  function CountWhere<T>(store: Store<T>, accept: T -> bool): (n: nat)
    ensures n == |set k | k in store && accept(store[k])|
    ensures n <= Count(store)
    ensures n == Count(store) <==> forall k :: k in store ==> accept(store[k])
  {
    var selected := GetAll(store, accept);
    assert selected.Keys == set k | k in store && accept(store[k]);
    SubsetCardinality(selected.Keys, store.Keys);
    |selected.Keys|
  }

  /** Every document is counted by exactly one of a predicate and its
      negation. */
  lemma CountWhereSplits<T>(store: Store<T>, accept: T -> bool)
    ensures CountWhere(store, accept) + CountWhere(store, x => !accept(x)) == Count(store)
  {
    var reject := x => !accept(x);
    var yes := set k | k in store && accept(store[k]);
    var no := set k | k in store && reject(store[k]);
    assert CountWhere(store, accept) == |yes|;
    assert CountWhere(store, reject) == |no|;
    assert yes + no == store.Keys;
    DisjointCardinality(yes, no);
  }

  lemma {:induction false} DisjointCardinality<K>(a: set<K>, b: set<K>)
    requires a * b == {}
    ensures |a + b| == |a| + |b|
    decreases a
  {
    if a != {} {
      var x :| x in a;
      DisjointCardinality(a - {x}, b);
      assert a + b == (a - {x} + b) + {x};
    }
  }

  lemma {:induction false} SubsetCardinality<K>(a: set<K>, b: set<K>)
    requires a <= b
    ensures |a| <= |b|
    ensures |a| == |b| <==> a == b
    decreases b
  {
    if b != {} {
      var x :| x in b;
      SubsetCardinality(a - {x}, b - {x});
      if x in a {
        assert a == (a - {x}) + {x};
        assert b == (b - {x}) + {x};
      }
    }
  }

  // ---------------------------------------------------------------------
  // The reflection-driven merge of UpdateAsync, written per entity: every
  // writable property but Id is copied from the incoming object unless its
  // value is null. Value-typed properties are never null.

  /** The merged value of one nullable property. */
  function Overlay<V>(existing: Option<V>, incoming: Option<V>): (r: Option<V>)
    ensures incoming.Some? ==> r == incoming
    ensures incoming.None? ==> r == existing
  {
    if incoming.Some? then incoming else existing
  }

  function MergeArea(existing: ParkingArea, incoming: ParkingArea): (r: ParkingArea)
    ensures r.id == existing.id
    ensures r.name == Overlay(existing.name, incoming.name)
    ensures r.location == Overlay(existing.location, incoming.location)
    ensures r.description == Overlay(existing.description, incoming.description)
    ensures r.weekdaysHourlyRateUsd == incoming.weekdaysHourlyRateUsd
    ensures r.weekendHourlyRateUsd == incoming.weekendHourlyRateUsd
    ensures r.discountPercentage == incoming.discountPercentage
    ensures r.isActive == incoming.isActive
  {
    ParkingArea(
      existing.id,
      Overlay(existing.name, incoming.name),
      Overlay(existing.location, incoming.location),
      incoming.weekdaysHourlyRateUsd,
      incoming.weekendHourlyRateUsd,
      incoming.discountPercentage,
      Overlay(existing.description, incoming.description),
      incoming.isActive)
  }

  function MergeFee(existing: ParkingFee, incoming: ParkingFee): (r: ParkingFee)
    ensures r.id == existing.id
    ensures r.parkingAreaId == Overlay(existing.parkingAreaId, incoming.parkingAreaId)
    ensures r.paymentResult == Overlay(existing.paymentResult, incoming.paymentResult)
    ensures r.startTime == incoming.startTime && r.endTime == incoming.endTime
    ensures r.parkingDate == incoming.parkingDate
  {
    ParkingFee(
      existing.id,
      Overlay(existing.parkingAreaId, incoming.parkingAreaId),
      incoming.startTime,
      incoming.endTime,
      incoming.parkingDate,
      Overlay(existing.paymentResult, incoming.paymentResult))
  }

  /** Merging the same body twice changes nothing more: the update is
      idempotent. An incoming object without nulls replaces everything but
      the Id. */
  lemma MergeAreaIdempotent(existing: ParkingArea, incoming: ParkingArea)
    ensures MergeArea(MergeArea(existing, incoming), incoming) == MergeArea(existing, incoming)
    ensures incoming.name.Some? && incoming.location.Some? && incoming.description.Some?
      ==> MergeArea(existing, incoming) == incoming.(id := existing.id)
  {
  }

  lemma MergeFeeIdempotent(existing: ParkingFee, incoming: ParkingFee)
    ensures MergeFee(MergeFee(existing, incoming), incoming) == MergeFee(existing, incoming)
    ensures incoming.parkingAreaId.Some? && incoming.paymentResult.Some?
      ==> MergeFee(existing, incoming) == incoming.(id := existing.id)
  {
  }

  // ---------------------------------------------------------------------
  // Every operation keeps each document under its own Id.

  lemma AddAreaKeepsKeys(store: Store<ParkingArea>, area: ParkingArea, generatedId: string)
    requires WellKeyed(store, AreaId)
    ensures WellKeyed(Add(store, area, AreaId, AreaWithId, generatedId).0, AreaId)
  {
  }

  lemma UpdateAreaKeepsKeys(store: Store<ParkingArea>, area: ParkingArea)
    requires WellKeyed(store, AreaId)
    requires Update(store, area, AreaId, MergeArea).Success?
    ensures WellKeyed(Update(store, area, AreaId, MergeArea).value, AreaId)
  {
  }

  lemma DeleteKeepsKeys<T>(store: Store<T>, id: string, idOf: T -> Option<string>)
    requires WellKeyed(store, idOf)
    ensures WellKeyed(Delete(store, id).1, idOf)
  {
  }

  lemma AddFeeKeepsKeys(store: Store<ParkingFee>, fee: ParkingFee, generatedId: string)
    requires WellKeyed(store, FeeId)
    ensures WellKeyed(Add(store, fee, FeeId, FeeWithId, generatedId).0, FeeId)
  {
  }

  lemma UpdateFeeKeepsKeys(store: Store<ParkingFee>, fee: ParkingFee)
    requires WellKeyed(store, FeeId)
    requires Update(store, fee, FeeId, MergeFee).Success?
    ensures WellKeyed(Update(store, fee, FeeId, MergeFee).value, FeeId)
  {
  }
}
