/** The order in which a cluster numbered its writes, and the register that order describes. */
module WriteLog {
  import opened Options
  import opened Replica

  /** A write as `SetLocal` numbered it. */
  datatype Put = Put(key: string, value: string, version: int)

  /** How many writes to a key the log holds. */
  function Count(log: seq<Put>, key: string): nat {
    if log == [] then 0
    else Count(log[..|log| - 1], key) + (if log[|log| - 1].key == key then 1 else 0)
  }

  /** The n-th write to the key has version n. */
  ghost predicate Numbered(log: seq<Put>, key: string) {
    forall i {:trigger NumberedAt(log, i)} :: 0 <= i < |log| && log[i].key == key ==> NumberedAt(log, i)
  }

  ghost predicate AllNumbered(log: seq<Put>) {
    forall i :: 0 <= i < |log| ==> NumberedAt(log, i)
  }

  ghost predicate NumberedAt(log: seq<Put>, i: nat)
    requires i < |log|
  {
    log[i].version == Count(log[..i], log[i].key) + 1
  }

  ghost predicate FromLog(log: seq<Put>, key: string, e: Entry) {
    exists i :: 0 <= i < |log| && log[i] == Put(key, e.value, e.version)
  }

  /** Everything a store holds was written. */
  ghost predicate StoreKnown(log: seq<Put>, store: Store) {
    forall key :: key in store ==> FromLog(log, key, store[key])
  }

  // ---- The log -----------------------------------------------------------------------------------

  lemma {:induction false} CountOfPrefix(log: seq<Put>, key: string, i: nat)
    requires i <= |log|
    ensures Count(log[..i], key) <= Count(log, key)
    ensures i < |log| && log[i].key == key ==> Count(log[..i], key) < Count(log, key)
  {
    if i < |log| {
      var init := log[..|log| - 1];
      if i < |init| {
        CountOfPrefix(init, key, i);
        assert init[..i] == log[..i];
      }
    } else {
      assert log[..i] == log;
    }
  }

  lemma LaterWriteNewer(log: seq<Put>, i: nat, j: nat)
    requires i < j < |log| && log[i].key == log[j].key && Numbered(log, log[i].key)
    ensures log[i].version < log[j].version
  {
    assert NumberedAt(log, i) && NumberedAt(log, j);
    CountOfPrefix(log[..j], log[i].key, i);
    assert log[..j][..i] == log[..i];
  }

  /** Within a numbered log, key and version name one write. */
  lemma VersionNamesWrite(log: seq<Put>, i: nat, j: nat)
    requires i < |log| && j < |log| && log[i].key == log[j].key && log[i].version == log[j].version
    requires Numbered(log, log[i].key)
    ensures i == j
  {
    if i < j {
      LaterWriteNewer(log, i, j);
    } else if j < i {
      LaterWriteNewer(log, j, i);
    }
  }

  lemma SameVersionSameEntry(log: seq<Put>, key: string, d: Entry, e: Entry)
    requires Numbered(log, key) && FromLog(log, key, d) && FromLog(log, key, e) && d.version == e.version
    ensures d == e
  {
    var i :| 0 <= i < |log| && log[i] == Put(key, d.value, d.version);
    var j :| 0 <= j < |log| && log[j] == Put(key, e.value, e.version);
    VersionNamesWrite(log, i, j);
  }

  /** No entry that came from the log is ahead of the number of writes, and none is below 1. */
  lemma KnownVersions(log: seq<Put>, key: string, e: Entry)
    requires Numbered(log, key) && FromLog(log, key, e)
    ensures 1 <= e.version <= Count(log, key)
  {
    var i :| 0 <= i < |log| && log[i] == Put(key, e.value, e.version);
    assert NumberedAt(log, i);
    CountOfPrefix(log, key, i);
  }

  lemma KnownInLongerLog(log: seq<Put>, more: seq<Put>, key: string, e: Entry)
    requires log <= more && FromLog(log, key, e)
    ensures FromLog(more, key, e)
  {
    var i :| 0 <= i < |log| && log[i] == Put(key, e.value, e.version);
    assert more[i] == log[i];
  }

  lemma EntriesStayKnown(log: seq<Put>, more: seq<Put>)
    requires log <= more
    ensures forall key, e :: FromLog(log, key, e) ==> FromLog(more, key, e)
  {
    forall key, e | FromLog(log, key, e)
      ensures FromLog(more, key, e)
    {
      KnownInLongerLog(log, more, key, e);
    }
  }

  /** The atomic register: what a key holds after the writes of a log, taken one after the other. */
  function Register(log: seq<Put>, key: string): Option<Entry> {
    if log == [] then None
    else
      var last := log[|log| - 1];
      if last.key == key then Some(Entry(last.value, last.version)) else Register(log[..|log| - 1], key)
  }

  lemma {:induction false} RegisterIsNewest(log: seq<Put>, key: string)
    requires Numbered(log, key)
    ensures Register(log, key).None? <==> Count(log, key) == 0
    ensures Register(log, key).Some? ==>
              FromLog(log, key, Register(log, key).value) && Register(log, key).value.version == Count(log, key)
  {
    if log == [] {
    } else {
      var init := log[..|log| - 1];
      assert log[|log| - 1].key == key ==> NumberedAt(log, |log| - 1);
      assert Numbered(init, key) by {
        forall i | 0 <= i < |init| && init[i].key == key
          ensures NumberedAt(init, i)
        {
          assert NumberedAt(log, i);
          assert init[..i] == log[..i];
        }
      }
      RegisterIsNewest(init, key);
      EntriesStayKnown(init, log);
      if log[|log| - 1].key == key {
        var last := log[|log| - 1];
        assert log[|log| - 1] == Put(key, last.value, last.version);
      }
    }
  }

  lemma NumberedPrefix(log: seq<Put>, key: string, n: nat)
    requires Numbered(log, key) && n <= |log|
    ensures Numbered(log[..n], key)
  {
    forall i | 0 <= i < n && log[i].key == key
      ensures NumberedAt(log[..n], i)
    {
      assert NumberedAt(log, i);
      assert log[..n][..i] == log[..i];
    }
  }

  /** The count of a key's writes climbs one at a time, so every value in between is reached. */
  lemma {:induction false} CountReached(log: seq<Put>, key: string, lo: nat, hi: nat, v: nat) returns (at: nat)
    requires lo <= hi <= |log|
    requires Count(log[..lo], key) <= v <= Count(log[..hi], key)
    ensures lo <= at <= hi && Count(log[..at], key) == v
  {
    if Count(log[..hi], key) == v {
      at := hi;
    } else {
      assert log[..hi][..hi - 1] == log[..hi - 1];
      at := CountReached(log, key, lo, hi - 1, v);
    }
  }

  /** An entry no older than the first `lo` writes is what the register holds at some place from there on. */
  lemma PlaceOf(log: seq<Put>, key: string, lo: nat, e: Entry) returns (at: nat)
    requires Numbered(log, key) && lo <= |log| && FromLog(log, key, e)
    requires Register(log[..lo], key).Some? ==> e.version >= Register(log[..lo], key).value.version
    ensures lo <= at <= |log| && Register(log[..at], key) == Some(e)
  {
    KnownVersions(log, key, e);
    NumberedPrefix(log, key, lo);
    RegisterIsNewest(log[..lo], key);
    assert log[..|log|] == log;
    at := CountReached(log, key, lo, |log|, e.version);
    NumberedPrefix(log, key, at);
    RegisterIsNewest(log[..at], key);
    var held := Register(log[..at], key).value;
    KnownInLongerLog(log[..at], log, key, held);
    SameVersionSameEntry(log, key, held, e);
  }

  lemma RegisterClimbs(log: seq<Put>, key: string, a: nat, b: nat)
    requires Numbered(log, key) && a <= b <= |log| && Register(log[..a], key).Some?
    ensures Register(log[..b], key).Some?
    ensures Register(log[..b], key).value.version >= Register(log[..a], key).value.version
  {
    NumberedPrefix(log, key, a);
    NumberedPrefix(log, key, b);
    RegisterIsNewest(log[..a], key);
    RegisterIsNewest(log[..b], key);
    CountOfPrefix(log[..b], key, a);
    assert log[..b][..a] == log[..a];
  }
}
