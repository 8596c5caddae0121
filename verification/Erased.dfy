// Type-erased keys: equality behind cached hashes and shared pointers, and lookups that
// borrow the key instead of owning it.
module Erased {
  import opened Types

  // The Hash and Eq implementations of all concrete key types. A type is known by its tag.
  datatype KeyTypes = KeyTypes(
    eq: (TypeTag, Payload, Payload) -> bool,
    hash: (TypeTag, Payload) -> U64)
  {
    // What Rust asks of every key type: an equivalence, and a hash that respects it.
    ghost predicate Lawful() {
      && (forall t, a :: eq(t, a, a))
      && (forall t, a, b :: eq(t, a, b) ==> eq(t, b, a))
      && (forall t, a, b, c :: eq(t, a, b) && eq(t, b, c) ==> eq(t, a, c))
      && (forall t, a, b :: eq(t, a, b) ==> hash(t, a) == hash(t, b))
    }
  }

  // A shared allocation that holds a value of some type.
  datatype Shared = Shared(address: nat, tag: TypeTag, payload: Payload)

  datatype ErasedKey = ErasedKey(typeId: TypeTag, hash: U64, data: Shared)

  // A key that was borrowed as its own type.
  datatype ErasedKeyRef = ErasedKeyRef(typeId: TypeTag, hash: U64, key: Payload)

  // A key that was borrowed as another type, which can be compared with keys of type K.
  datatype Lookup = Lookup(hash: U64, eqKey: Payload -> bool)
  datatype ErasedKeyLookup = ErasedKeyLookup(typeId: TypeTag, hash: U64, key: Lookup)

  function NewKey(w: KeyTypes, t: TypeTag, key: Payload, address: nat): ErasedKey {
    ErasedKey(t, w.hash(t, key), Shared(address, t, key))
  }

  function NewRef(w: KeyTypes, t: TypeTag, key: Payload): ErasedKeyRef {
    ErasedKeyRef(t, w.hash(t, key), key)
  }

  function NewLookup(t: TypeTag, key: Lookup): ErasedKeyLookup {
    ErasedKeyLookup(t, key.hash, key)
  }

  // The comparison function a key of type t carries: both sides must be of that type.
  predicate EqImpl(w: KeyTypes, t: TypeTag, a: Shared, b: Shared) {
    a.tag == t && b.tag == t && w.eq(t, a.payload, b.payload)
  }

  predicate Equal(w: KeyTypes, a: ErasedKey, b: ErasedKey) {
    if a.hash != b.hash || a.typeId != b.typeId then false
    else if a.data.address == b.data.address then true
    else EqImpl(w, a.typeId, a.data, b.data)
  }

  predicate RefEquals(w: KeyTypes, k: ErasedKeyRef, stored: ErasedKey) {
    if k.hash != stored.hash || k.typeId != stored.typeId then false
    else stored.data.tag == k.typeId && w.eq(k.typeId, k.key, stored.data.payload)
  }

  predicate LookupEquals(k: ErasedKeyLookup, stored: ErasedKey) {
    if k.hash != stored.hash || k.typeId != stored.typeId then false
    else stored.data.tag == k.typeId && k.key.eqKey(stored.data.payload)
  }

  // ----- equality -----

  predicate Made(w: KeyTypes, k: ErasedKey) {
    k == NewKey(w, k.data.tag, k.data.payload, k.data.address)
  }

  // Two allocations at one address are one allocation.
  predicate OneHeap(a: ErasedKey, b: ErasedKey) {
    a.data.address == b.data.address ==> a.data == b.data
  }

  predicate SameTypedKey(w: KeyTypes, a: ErasedKey, b: ErasedKey) {
    a.data.tag == b.data.tag && w.eq(a.data.tag, a.data.payload, b.data.payload)
  }

  // Neither the cached hash nor the pointer shortcut changes the outcome: erased keys are
  // equal exactly if they are keys of one type that are equal there.
  lemma EqualIsTypedEquality(w: KeyTypes, a: ErasedKey, b: ErasedKey)
    requires w.Lawful() && Made(w, a) && Made(w, b) && OneHeap(a, b)
    ensures Equal(w, a, b) <==> SameTypedKey(w, a, b)
    ensures Equal(w, a, b) ==> a.hash == b.hash
  {
  }

  lemma EqualIsEquivalence(w: KeyTypes, a: ErasedKey, b: ErasedKey, c: ErasedKey)
    requires w.Lawful() && Made(w, a) && Made(w, b) && Made(w, c)
    requires OneHeap(a, b) && OneHeap(b, c) && OneHeap(a, c)
    ensures Equal(w, a, a)
    ensures Equal(w, a, b) ==> Equal(w, b, a)
    ensures Equal(w, a, b) && Equal(w, b, c) ==> Equal(w, a, c)
  {
    var t := a.data.tag;
    if SameTypedKey(w, a, b) && SameTypedKey(w, b, c) {
      assert w.eq(t, a.data.payload, b.data.payload) && w.eq(t, b.data.payload, c.data.payload);
    }
    EqualIsTypedEquality(w, a, b);
    EqualIsTypedEquality(w, b, c);
    EqualIsTypedEquality(w, a, c);
  }

  // ----- lookups -----

  datatype Slot = Slot(key: ErasedKey, entry: EntryData)

  // A hash table, as the collection of its slots: made on one heap, no key twice.
  ghost predicate Table(w: KeyTypes, slots: seq<Slot>) {
    && (forall i :: 0 <= i < |slots| ==> Made(w, slots[i].key))
    && (forall i, j :: 0 <= i < |slots| && 0 <= j < |slots| ==> OneHeap(slots[i].key, slots[j].key))
    && (forall i, j :: 0 <= i < j < |slots| ==> !Equal(w, slots[i].key, slots[j].key))
  }

  // Searching the table for a hash: a slot whose key has that hash and satisfies the test.
  ghost predicate Finds(slots: seq<Slot>, hash: U64, test: ErasedKey -> bool, i: nat) {
    i < |slots| && slots[i].key.hash == hash && test(slots[i].key)
  }

  // A lookup: the slots with the entry it finds bumped, and that entry.
  ghost function Get(slots: seq<Slot>, hash: U64, test: ErasedKey -> bool): (seq<Slot>, Option<EntryData>) {
    if exists i: nat :: Finds(slots, hash, test, i) then
      var i: nat :| Finds(slots, hash, test, i);
      var entry := slots[i].entry.Touched();
      (slots[i := slots[i].(entry := entry)], Some(entry))
    else (slots, None)
  }

  // The contract of a borrowed key: it compares as an owned key does, and hashes alike.
  ghost predicate HashConsistent(w: KeyTypes, t: TypeTag, q: Lookup, owned: Payload) {
    && q.hash == w.hash(t, owned)
    && (forall p :: q.eqKey(p) <==> w.eq(t, owned, p))
  }

  // A key is found in one slot at most, so what a lookup does is not left to the search.
  lemma FoundOnce(w: KeyTypes, slots: seq<Slot>, key: ErasedKey, i: nat, j: nat)
    requires w.Lawful() && Table(w, slots) && Made(w, key)
    requires forall n :: 0 <= n < |slots| ==> OneHeap(key, slots[n].key)
    requires i < |slots| && Equal(w, key, slots[i].key)
    requires j < |slots| && Equal(w, key, slots[j].key)
    ensures i == j
  {
    var a, b := slots[i].key, slots[j].key;
    EqualIsEquivalence(w, key, a, b);
    EqualIsEquivalence(w, a, key, b);
    EqualIsEquivalence(w, b, key, a);
  }

  lemma SameSlot(w: KeyTypes, t: TypeTag, owned: Payload, address: nat, q: Lookup, stored: ErasedKey)
    requires w.Lawful() && HashConsistent(w, t, q, owned)
    requires Made(w, stored) && OneHeap(NewKey(w, t, owned, address), stored)
    ensures Equal(w, NewKey(w, t, owned, address), stored) <==> RefEquals(w, NewRef(w, t, owned), stored)
    ensures Equal(w, NewKey(w, t, owned, address), stored) <==> LookupEquals(NewLookup(t, q), stored)
    ensures Equal(w, NewKey(w, t, owned, address), stored) ==> stored.hash == w.hash(t, owned)
  {
    EqualIsTypedEquality(w, NewKey(w, t, owned, address), stored);
  }

  lemma SameSearch(slots: seq<Slot>, hash: U64, test: ErasedKey -> bool, hash': U64, test': ErasedKey -> bool)
    requires forall i: nat :: Finds(slots, hash, test, i) <==> Finds(slots, hash', test', i)
    requires forall i: nat, j: nat :: Finds(slots, hash, test, i) && Finds(slots, hash, test, j) ==> i == j
    ensures Get(slots, hash, test) == Get(slots, hash', test')
  {
  }

  // Lookups by an owned key, by a reference to it and by another borrowed form of it find the
  // same entry, bump it in the same way, and leave the same table behind.
  lemma BorrowedLookupsAgree(w: KeyTypes, slots: seq<Slot>, t: TypeTag, owned: Payload, address: nat, q: Lookup)
    requires w.Lawful() && Table(w, slots) && HashConsistent(w, t, q, owned)
    requires forall j :: 0 <= j < |slots| ==> OneHeap(NewKey(w, t, owned, address), slots[j].key)
    ensures var key := NewKey(w, t, owned, address);
            var ref := NewRef(w, t, owned);
            var lookup := NewLookup(t, q);
            var found := Get(slots, key.hash, k => Equal(w, key, k));
            && found == Get(slots, ref.hash, k => RefEquals(w, ref, k))
            && found == Get(slots, lookup.hash, k => LookupEquals(lookup, k))
  {
    var key := NewKey(w, t, owned, address);
    var ref := NewRef(w, t, owned);
    var lookup := NewLookup(t, q);
    var byKey := (k: ErasedKey) => Equal(w, key, k);
    var byRef := (k: ErasedKey) => RefEquals(w, ref, k);
    var byLookup := (k: ErasedKey) => LookupEquals(lookup, k);
    forall i: nat
      ensures Finds(slots, key.hash, byKey, i) <==> Finds(slots, ref.hash, byRef, i)
      ensures Finds(slots, key.hash, byKey, i) <==> Finds(slots, lookup.hash, byLookup, i)
    {
      if i < |slots| {
        SameSlot(w, t, owned, address, q, slots[i].key);
      }
    }
    forall i: nat, j: nat | Finds(slots, key.hash, byKey, i) && Finds(slots, key.hash, byKey, j)
      ensures i == j
    {
      FoundOnce(w, slots, key, i, j);
    }
    SameSearch(slots, key.hash, byKey, ref.hash, byRef);
    SameSearch(slots, key.hash, byKey, lookup.hash, byLookup);
  }

  // Without the contract on the hash the key is not found, although it is there: a borrowed
  // key that compares like an owned one finds the owned key's slot exactly if it hashes alike.
  lemma HashContractIsNeeded(w: KeyTypes, slots: seq<Slot>, t: TypeTag, owned: Payload, address: nat, q: Lookup, i: nat)
    requires w.Lawful() && Table(w, slots)
    requires forall p :: q.eqKey(p) <==> w.eq(t, owned, p)
    requires forall j :: 0 <= j < |slots| ==> OneHeap(NewKey(w, t, owned, address), slots[j].key)
    requires Finds(slots, w.hash(t, owned), k => Equal(w, NewKey(w, t, owned, address), k), i)
    ensures Finds(slots, q.hash, k => LookupEquals(NewLookup(t, q), k), i) <==> q.hash == w.hash(t, owned)
  {
    EqualIsTypedEquality(w, NewKey(w, t, owned, address), slots[i].key);
  }
}
