/** The versioned key-value store that every node of both clusters runs. */
module Replica {
  import opened Options

  datatype Entry = Entry(value: string, version: int)

  type Store = map<string, Entry>

  function Lookup(s: Store, key: string): Option<Entry> {
    if key in s then Some(s[key]) else None
  }

  /** The version a node holds for a key, 0 when it holds none. */
  function Ver(s: Store, key: string): int {
    if key in s then s[key].version else 0
  }

  /** What `Set` leaves behind: the incoming entry wins only when it is newer. */
  function Applied(s: Store, key: string, e: Entry): Store {
    if key !in s || e.version > s[key].version then s[key := e] else s
  }

  /** The version `SetLocal` gives to the next write. */
  function NextVersion(s: Store, key: string): int {
    if key in s then s[key].version + 1 else 1
  }

  /** An entry is only ever displaced by a newer one. */
  ghost predicate StoreGrows(s: Store, t: Store) {
    forall key :: key in s ==> key in t && (t[key] == s[key] || t[key].version > s[key].version)
  }

  class KVStore {
    var data: Store

    constructor ()
      ensures data == map[]
    {
      data := map[];
    }

    method Get(key: string) returns (e: Entry, ok: bool)
      ensures ok <==> Lookup(data, key).Some?
      ensures ok ==> Lookup(data, key) == Some(e)
      ensures !ok ==> e == Entry("", 0)
    {
      if key in data {
        e, ok := data[key], true;
      } else {
        e, ok := Entry("", 0), false;
      }
    }

    method Set(key: string, value: string, version: int)
      modifies this
      ensures data == Applied(old(data), key, Entry(value, version))
      ensures forall k :: k != key ==> Lookup(data, k) == Lookup(old(data), k)
      ensures key in data && data[key].version >= version
    {
      if key !in data || version > data[key].version {
        data := data[key := Entry(value, version)];
      }
    }

    method SetLocal(key: string, value: string) returns (v: int)
      modifies this
      ensures v == NextVersion(old(data), key)
      ensures data == old(data)[key := Entry(value, v)]
      ensures key in old(data) ==> v > old(data)[key].version
    {
      v := 1;
      if key in data {
        v := data[key].version + 1;
      }
      data := data[key := Entry(value, v)];
    }
  }

  /** A replicate message. */
  datatype Message = Message(key: string, entry: Entry)

  function ApplyAll(s: Store, ms: seq<Message>): Store {
    if ms == [] then s
    else Applied(ApplyAll(s, ms[..|ms| - 1]), ms[|ms| - 1].key, ms[|ms| - 1].entry)
  }

  /** Two messages commute at a store exactly when they are not a fresh tie: same key, same version,
      different values, and newer than what the store holds. */
  lemma CommuteExactly(s: Store, a: Message, b: Message)
    ensures ApplyAll(s, [a, b]) == ApplyAll(s, [b, a])
       <==> !(a.key == b.key && a.entry.version == b.entry.version && a.entry.value != b.entry.value
              && (a.key !in s || s[a.key].version < a.entry.version))
  {
    ApplyTwo(s, a, b);
    ApplyTwo(s, b, a);
    var ab := Applied(Applied(s, a.key, a.entry), b.key, b.entry);
    var ba := Applied(Applied(s, b.key, b.entry), a.key, a.entry);
    if a.key == b.key {
      assert ab != ba <==> ab[a.key] != ba[a.key] by {
        assert forall k :: k != a.key ==> Lookup(ab, k) == Lookup(ba, k) == Lookup(s, k);
        SameLookups(ab, ba);
      }
    } else {
      forall k
        ensures Lookup(ab, k) == Lookup(ba, k)
      {
      }
      SameLookups(ab, ba);
    }
  }

  lemma ApplyTwo(s: Store, a: Message, b: Message)
    ensures ApplyAll(s, [a, b]) == Applied(Applied(s, a.key, a.entry), b.key, b.entry)
  {
    assert [a, b][..1] == [a] && [a][..0] == [];
    assert ApplyAll(s, [a]) == Applied(s, a.key, a.entry);
  }

  lemma SameLookups(s: Store, t: Store)
    ensures s == t <==> forall k :: Lookup(s, k) == Lookup(t, k)
  {
    if forall k :: Lookup(s, k) == Lookup(t, k) {
      forall k
        ensures k in s <==> k in t
        ensures k in s ==> s[k] == t[k]
      {
        assert Lookup(s, k) == Lookup(t, k);
      }
    }
  }

  /** Among messages for a key, the version fixes the value. */
  ghost predicate VersionFixesValue(ms: set<Message>) {
    forall a, b :: a in ms && b in ms && a.key == b.key && a.entry.version == b.entry.version ==> a == b
  }

  ghost function MessageSet(ms: seq<Message>): set<Message> {
    set m | m in ms
  }

  /** After any deliveries a key holds the newest of the old entry and the messages for it. */
  ghost predicate HoldsNewest(s: Store, ms: set<Message>, t: Store, key: string) {
    && (key in s ==> key in t && t[key].version >= s[key].version)
    && (forall m :: m in ms && m.key == key ==> key in t && t[key].version >= m.entry.version)
    && (key in t ==> (key in s && t[key] == s[key])
                     || (Message(key, t[key]) in ms && (key in s ==> t[key].version > s[key].version)))
  }

  lemma {:induction false} ApplyAllHoldsNewest(s: Store, ms: seq<Message>, key: string)
    ensures HoldsNewest(s, MessageSet(ms), ApplyAll(s, ms), key)
  {
    if ms == [] {
    } else {
      var init, last := ms[..|ms| - 1], ms[|ms| - 1];
      ApplyAllHoldsNewest(s, init, key);
      assert ms == init + [last];
      assert MessageSet(ms) == MessageSet(init) + {last};
      var t, u := ApplyAll(s, init), ApplyAll(s, ms);
      assert u == Applied(t, last.key, last.entry);
      if last.key == key && u[key] == last.entry {
        assert Message(key, u[key]) == last;
      }
    }
  }

  /** Convergence of the store: any two delivery orders of the same messages, with any repetitions,
      leave the same store, provided the version of a key fixes its value. */
  lemma DeliveryOrderIrrelevant(s: Store, ms: seq<Message>, ns: seq<Message>)
    requires MessageSet(ms) == MessageSet(ns)
    requires VersionFixesValue(MessageSet(ms))
    ensures ApplyAll(s, ms) == ApplyAll(s, ns)
  {
    var t, u := ApplyAll(s, ms), ApplyAll(s, ns);
    forall k
      ensures Lookup(t, k) == Lookup(u, k)
    {
      ApplyAllHoldsNewest(s, ms, k);
      ApplyAllHoldsNewest(s, ns, k);
      if k in t && Message(k, t[k]) in MessageSet(ms) && k in u && Message(k, u[k]) in MessageSet(ms) {
        assert t[k].version == u[k].version;
      }
    }
    SameLookups(t, u);
  }
}
