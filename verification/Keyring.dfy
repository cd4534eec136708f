/** Long values in the system keyring (`util.rs`): split between characters, one entry per part. */
module Keyring {
  import opened Prelude

  const KEYRING_CHUNK_LEN := 1000

  type Bytes = seq<Byte>

  // ---- UTF-8 -------------------------------------------------------------------------------

  predicate Continues(b: Byte) {
    0x80 <= b < 0xC0
  }

  /** The length of the character a byte begins, by section 3 of RFC 3629; 0 if it begins none. */
  function CharLen(b: Byte): nat {
    if b < 0x80 then 1 else if b < 0xC0 then 0 else if b < 0xE0 then 2 else if b < 0xF0 then 3
    else if b < 0xF8 then 4 else 0
  }

  predicate CharAt(s: Bytes, n: nat) {
    0 < n <= |s| && CharLen(s[0]) == n && forall k :: 0 < k < n ==> Continues(s[k])
  }

  /** A sequence of whole characters. Every string of the source is one; more than it are. */
  predicate Utf8(s: Bytes) {
    s == [] || (CharAt(s, CharLen(s[0])) && Utf8(s[CharLen(s[0])..]))
  }

  /** `is_char_boundary`. */
  predicate Boundary(s: Bytes, i: nat) {
    i == 0 || i == |s| || (i < |s| && !Continues(s[i]))
  }

  /** Cut at a boundary, both parts are whole characters. */
  lemma {:induction false} CutAtBoundary(s: Bytes, i: nat)
    requires Utf8(s) && i <= |s| && Boundary(s, i)
    ensures Utf8(s[..i]) && Utf8(s[i..])
    decreases |s|
  {
    if i == 0 {
      assert s[..0] == [] && s[0..] == s;
    } else {
      var n := CharLen(s[0]);
      var rest := s[n..];
      assert i >= n;
      assert i < |s| ==> s[i] == rest[i - n] || i < n;
      CutAtBoundary(rest, i - n);
      var part := s[..i];
      assert part[n..] == rest[..i - n] && s[i..] == rest[i - n..];
      assert CharAt(part, n);
    }
  }

  /** `floor_char_boundary`: the last boundary at or before `max`. */
  method FloorCharBoundary(s: Bytes, max: nat) returns (i: nat)
    ensures i <= |s| && i <= max && Boundary(s, i)
    ensures forall j :: i < j <= max && j <= |s| ==> !Boundary(s, j)
  {
    i := if max >= |s| then |s| else max;
    while !Boundary(s, i)
      invariant i <= |s| && i <= max
      invariant forall j :: i < j <= max && j <= |s| ==> !Boundary(s, j)
      decreases i
    {
      i := i - 1;
    }
  }

  /** `ceil_char_boundary`: the first boundary at or behind `min`. */
  method CeilCharBoundary(s: Bytes, min: nat) returns (i: nat)
    requires min <= |s|
    ensures min <= i <= |s| && Boundary(s, i)
    ensures forall j :: min <= j < i ==> !Boundary(s, j)
  {
    i := min;
    while !Boundary(s, i)
      invariant min <= i <= |s|
      invariant forall j :: min <= j < i ==> !Boundary(s, j)
      decreases |s| - i
    {
      i := i + 1;
    }
  }

  // ---- splitting ---------------------------------------------------------------------------

  function Concat(parts: seq<Bytes>): Bytes {
    if parts == [] then [] else Concat(parts[..|parts| - 1]) + parts[|parts| - 1]
  }

  /** A part is whole characters, and no longer than `max` unless it is a single longer one. */
  predicate IsPart(part: Bytes, max: nat) {
    part != [] && Utf8(part) && (|part| <= max || CharAt(part, |part|))
  }

  lemma FirstBoundary(s: Bytes, i: nat)
    requires Utf8(s) && s != [] && 1 <= i <= |s| && Boundary(s, i)
    requires forall j :: 1 <= j < i ==> !Boundary(s, j)
    ensures i == CharLen(s[0]) && CharAt(s[..i], i)
  {
    var n := CharLen(s[0]);
    assert CharAt(s, n);
    assert n < |s| ==> s[n] == s[n..][0] && CharAt(s[n..], CharLen(s[n..][0]));
    assert Boundary(s, n);
  }

  /** Where the next part ends; a character longer than `max` is taken whole. */
  method NextCut(rest: Bytes, max: nat) returns (end: nat)
    requires Utf8(rest) && rest != []
    ensures 0 < end <= |rest|
    ensures IsPart(rest[..end], max) && Utf8(rest[end..])
  {
    end := FloorCharBoundary(rest, max);
    if end == 0 {
      end := CeilCharBoundary(rest, 1);
      FirstBoundary(rest, end);
    }
    CutAtBoundary(rest, end);
  }

  lemma ConcatSnoc(parts: seq<Bytes>, part: Bytes)
    ensures Concat(parts + [part]) == Concat(parts) + part
  {
  }

  lemma MoveCut(parts: seq<Bytes>, rest: Bytes, end: nat)
    requires end <= |rest|
    ensures Concat(parts + [rest[..end]]) + rest[end..] == Concat(parts) + rest
  {
    ConcatSnoc(parts, rest[..end]);
    assert rest == rest[..end] + rest[end..];
    var a, x, y := Concat(parts), rest[..end], rest[end..];
    assert (a + x) + y == a + (x + y);
  }

  /** `split_on_char_boundaries`. */
  method SplitOnCharBoundaries(value: Bytes, max: nat) returns (parts: seq<Bytes>)
    requires Utf8(value)
    ensures Concat(parts) == value
    ensures forall part :: part in parts ==> IsPart(part, max)
  {
    parts := [];
    var rest := value;
    while rest != []
      invariant Utf8(rest) && Concat(parts) + rest == value
      invariant forall part :: part in parts ==> IsPart(part, max)
      decreases |rest|
    {
      var end := NextCut(rest, max);
      MoveCut(parts, rest, end);
      parts, rest := parts + [rest[..end]], rest[end..];
    }
  }

  /** No character is longer than 4 bytes: with the keyring's limit, every part is within it. */
  lemma PartsFit(part: Bytes)
    requires IsPart(part, KEYRING_CHUNK_LEN)
    ensures |part| <= KEYRING_CHUNK_LEN
  {
  }

  // ---- keys --------------------------------------------------------------------------------

  function Digit(d: nat): char
    requires d < 10
  {
    '0' + d as char
  }

  function Decimal(n: nat): string {
    if n < 10 then [Digit(n)] else Decimal(n / 10) + [Digit(n % 10)]
  }

  function ChunkKey(name: string, i: nat): string {
    name + "_" + Decimal(i)
  }

  lemma {:induction false} DecimalDigits(n: nat)
    ensures Decimal(n) != "" && forall c :: c in Decimal(n) ==> '0' <= c <= '9'
  {
    if n >= 10 {
      DecimalDigits(n / 10);
    }
  }

  lemma DecimalLength(n: nat)
    ensures |Decimal(n)| > 1 <==> n >= 10
  {
  }

  lemma {:induction false} DecimalInjective(m: nat, n: nat)
    requires Decimal(m) == Decimal(n)
    ensures m == n
  {
    var d, e := Decimal(m), Decimal(n);
    DecimalLength(m);
    DecimalLength(n);
    assert d[|d| - 1] == Digit(m % 10) && e[|e| - 1] == Digit(n % 10);
    if m >= 10 {
      assert d[..|d| - 1] == Decimal(m / 10) && e[..|e| - 1] == Decimal(n / 10);
      DecimalInjective(m / 10, n / 10);
    }
  }

  /** Keys of different names, or of different parts, differ. */
  lemma ChunkKeyInjective(name: string, i: nat, name': string, i': nat)
    requires ChunkKey(name, i) == ChunkKey(name', i')
    ensures name == name' && i == i'
  {
    DecimalDigits(i);
    DecimalDigits(i');
    LastUnderscore(ChunkKey(name, i), name, Decimal(i), name', Decimal(i'));
    DecimalInjective(i, i');
  }

  /** What follows the last underscore, and what precedes it, can be told from the whole. */
  lemma LastUnderscore(key: string, a: string, d: string, a': string, d': string)
    requires key == a + "_" + d == a' + "_" + d' && '_' !in d && '_' !in d'
    ensures a == a' && d == d'
  {
    assert key[|a|] == '_' && key[|a'|] == '_';
    assert forall k :: |a| < k < |key| ==> key[k] == d[k - |a| - 1] && d[k - |a| - 1] in d;
    assert forall k :: |a'| < k < |key| ==> key[k] == d'[k - |a'| - 1] && d'[k - |a'| - 1] in d';
    assert |a| == |a'|;
    assert a == key[..|a|] == a';
    assert d == key[|a| + 1..] == d';
  }

  // ---- the store ---------------------------------------------------------------------------

  datatype Fault = Fault

  /** A `ChunkStore`; any call may fail, and then changes nothing. */
  class ChunkStore {
    var entries: map<string, Bytes>
    var calls: nat
    const faults: nat -> bool

    constructor (entries: map<string, Bytes>, faults: nat -> bool)
      ensures this.entries == entries && this.faults == faults && calls == 0
    {
      this.entries, this.faults, calls := entries, faults, 0;
    }

    method Get(key: string) returns (r: Result<Option<Bytes>, Fault>)
      modifies this`calls
      ensures r.Ok? ==> r.value == if key in entries then Some(entries[key]) else None
    {
      calls := calls + 1;
      if faults(calls) {
        return Err(Fault);
      }
      r := Ok(if key in entries then Some(entries[key]) else None);
    }

    method Set(key: string, value: Bytes) returns (r: Result<(), Fault>)
      modifies this
      ensures entries == if r.Ok? then old(entries)[key := value] else old(entries)
    {
      calls := calls + 1;
      if faults(calls) {
        return Err(Fault);
      }
      entries := entries[key := value];
      r := Ok(());
    }

    method Delete(key: string) returns (r: Result<bool, Fault>)
      modifies this
      ensures entries == if r.Ok? then old(entries) - {key} else old(entries)
      ensures r.Ok? ==> r.value == (key in old(entries))
    {
      calls := calls + 1;
      if faults(calls) {
        return Err(Fault);
      }
      r := Ok(key in entries);
      entries := entries - {key};
    }
  }

  type Entries = map<string, Bytes>

  /** The keys of a value's parts. */
  type Keys = nat -> string

  ghost predicate Injective(key: Keys) {
    forall i, j :: key(i) == key(j) ==> i == j
  }

  /** The parts stored, up to the first one missing. */
  ghost predicate Holds(entries: Entries, key: Keys, parts: seq<Bytes>) {
    && (forall k: nat :: k < |parts| ==> key(k) in entries && entries[key(k)] == parts[k])
    && key(|parts|) !in entries
  }

  predicate Same(before: Entries, after: Entries, k: string) {
    (k in before <==> k in after) && (k in before ==> before[k] == after[k])
  }

  /** Every entry that is not one of the parts is as it was. */
  ghost predicate OthersKept(before: Entries, after: Entries, key: Keys) {
    forall k :: !IsPartKey(key, k) ==> Same(before, after, k)
  }

  ghost predicate IsPartKey(key: Keys, k: string) {
    exists i: nat :: key(i) == k
  }

  lemma OthersKeptTrans(a: Entries, b: Entries, c: Entries, key: Keys)
    requires OthersKept(a, b, key) && OthersKept(b, c, key)
    ensures OthersKept(a, c, key)
  {
  }

  /** Setting or deleting a part keeps the others. */
  lemma PartChanged(a: Entries, key: Keys, i: nat, value: Bytes)
    ensures OthersKept(a, a[key(i) := value], key) && OthersKept(a, a - {key(i)}, key)
  {
  }

  ghost function KeysBelow(key: Keys, n: nat): set<string> {
    set i: nat | i < n :: key(i)
  }

  lemma {:induction false} KeysBelowSize(key: Keys, n: nat)
    requires Injective(key)
    ensures |KeysBelow(key, n)| == n
  {
    if n > 0 {
      KeysBelowSize(key, n - 1);
      assert KeysBelow(key, n) == KeysBelow(key, n - 1) + {key(n - 1)};
      assert key(n - 1) !in KeysBelow(key, n - 1);
    }
  }

  /** A store holds finitely many parts, so a read ends. */
  lemma PartsAreFinite(entries: Entries, key: Keys, n: nat)
    requires Injective(key) && forall k: nat :: k < n ==> key(k) in entries
    ensures n <= |entries|
  {
    KeysBelowSize(key, n);
    var keys := KeysBelow(key, n);
    assert keys <= entries.Keys;
    assert entries.Keys == keys + (entries.Keys - keys);
    assert |entries| == |entries.Keys|;
  }

  /** The parts from `first` up to `cut` are gone, every other entry is as it was. */
  ghost predicate CutTo(before: Entries, after: Entries, key: Keys, first: nat, cut: nat) {
    && first <= cut
    && (forall k: nat :: first <= k < cut ==> key(k) in before && key(k) !in after)
    && (forall k: nat :: k < first || k >= cut ==> Same(before, after, key(k)))
    && OthersKept(before, after, key)
  }

  /** How far a write got: the first `done` parts are set; once all are, those of a longer value up
      to `cut` are gone; every other entry is as it was. */
  ghost predicate WrittenTo(before: Entries, after: Entries, key: Keys, parts: seq<Bytes>, done: nat,
                            cut: nat)
  {
    && done <= |parts| <= cut && (cut > |parts| ==> done == |parts|)
    && (forall k: nat :: k < done ==> key(k) in after && after[key(k)] == parts[k])
    && (forall k: nat :: |parts| <= k < cut ==> key(k) in before && key(k) !in after)
    && (forall k: nat :: done <= k && !(|parts| <= k < cut) ==> Same(before, after, key(k)))
    && OthersKept(before, after, key)
  }

  predicate IsSplitOf(parts: seq<Bytes>, value: Bytes) {
    Concat(parts) == value && forall part :: part in parts ==> IsPart(part, KEYRING_CHUNK_LEN)
  }

  lemma PartSet(before: Entries, now: Entries, key: Keys, parts: seq<Bytes>, i: nat)
    requires Injective(key) && i < |parts| && WrittenTo(before, now, key, parts, i, |parts|)
    ensures WrittenTo(before, now[key(i) := parts[i]], key, parts, i + 1, |parts|)
  {
    PartChanged(now, key, i, parts[i]);
    OthersKeptTrans(before, now, now[key(i) := parts[i]], key);
  }

  lemma LeftoversCut(before: Entries, put: Entries, after: Entries, key: Keys, parts: seq<Bytes>, cut: nat)
    requires Injective(key) && WrittenTo(before, put, key, parts, |parts|, |parts|)
    requires CutTo(put, after, key, |parts|, cut)
    ensures WrittenTo(before, after, key, parts, |parts|, cut)
  {
    OthersKeptTrans(before, put, after, key);
    forall k: nat | |parts| <= k < cut
      ensures key(k) in before && key(k) !in after
    {
      assert Same(before, put, key(k));
    }
    forall k: nat | k < |parts|
      ensures key(k) in after && after[key(k)] == parts[k]
    {
      assert Same(put, after, key(k));
    }
    forall k: nat | k >= cut
      ensures Same(before, after, key(k))
    {
      assert Same(before, put, key(k)) && Same(put, after, key(k));
    }
  }

  lemma PartCut(before: Entries, now: Entries, key: Keys, first: nat, i: nat)
    requires Injective(key) && CutTo(before, now, key, first, i) && key(i) in now
    ensures CutTo(before, now - {key(i)}, key, first, i + 1)
  {
    PartChanged(now, key, i, []);
    OthersKeptTrans(before, now, now - {key(i)}, key);
    assert Same(before, now, key(i));
    forall k: nat | k < first || k >= i + 1
      ensures Same(before, now - {key(i)}, key(k))
    {
      assert Same(before, now, key(k)) && key(k) != key(i);
    }
  }

  class LongKeyringEntry {
    const store: ChunkStore
    const key: Keys

    constructor (store: ChunkStore, name: string)
      ensures this.store == store && Injective(key)
      ensures forall i :: key(i) == ChunkKey(name, i)
    {
      this.store := store;
      this.key := (i: nat) => ChunkKey(name, i);
      new;
      forall i, j | key(i) == key(j)
        ensures i == j
      {
        ChunkKeyInjective(name, i, name, j);
      }
    }

    method Read() returns (r: Result<Option<Bytes>, Fault>)
      requires Injective(key)
      modifies store`calls
      ensures r.Ok? ==> exists parts ::
                && Holds(store.entries, key, parts)
                && r.value == if parts == [] then None else Some(Concat(parts))
    {
      var result: Option<Bytes> := None;
      ghost var parts: seq<Bytes> := [];
      var i := 0;
      while true
        invariant i == |parts|
        invariant forall k: nat :: k < i ==>
          key(k) in store.entries && store.entries[key(k)] == parts[k]
        invariant result == if parts == [] then None else Some(Concat(parts))
        decreases |store.entries| - i
      {
        PartsAreFinite(store.entries, key, i);
        var got := store.Get(key(i));
        if got.Err? {
          return Err(got.error);
        }
        if got.value.None? {
          break;
        }
        ConcatSnoc(parts, got.value.value);
        assert Concat([]) == [] && [] + got.value.value == got.value.value;
        result := Some((if result.Some? then result.value else []) + got.value.value);
        parts := parts + [got.value.value];
        i := i + 1;
        PartsAreFinite(store.entries, key, i);
      }
      assert Holds(store.entries, key, parts);
      r := Ok(result);
    }

    /** Deletes up to the first part missing, so that the `first` one is, or up to a failure. */
    method DeleteFrom(first: nat) returns (r: Result<bool, Fault>)
      requires Injective(key)
      modifies store
      ensures exists cut :: CutTo(old(store.entries), store.entries, key, first, cut)
      ensures r.Ok? ==> key(first) !in store.entries
      ensures r.Ok? ==> r.value == (key(first) in old(store.entries))
    {
      var deletedAny := false;
      var i: nat := first;
      while true
        invariant CutTo(old(store.entries), store.entries, key, first, i)
        invariant deletedAny <==> i > first
        decreases |store.entries|
      {
        ghost var before := store.entries;
        var deleted := store.Delete(key(i));
        if deleted.Err? {
          return Err(deleted.error);
        }
        if !deleted.value {
          assert store.entries == before;
          break;
        }
        PartCut(old(store.entries), before, key, first, i);
        OneFewer(before, key(i));
        deletedAny := true;
        i := i + 1;
      }
      assert Same(old(store.entries), store.entries, key(first)) || i > first;
      r := Ok(deletedAny);
    }

    /** Stores the parts, then deletes what a longer value left behind. Completed or not, it got some
        way through the parts of the value. */
    method Write(value: Bytes) returns (r: Result<(), Fault>)
      requires Injective(key) && Utf8(value)
      modifies store
      ensures exists parts, done, cut ::
                && IsSplitOf(parts, value)
                && WrittenTo(old(store.entries), store.entries, key, parts, done, cut)
                && (r.Ok? ==> Holds(store.entries, key, parts))
    {
      var parts := SplitOnCharBoundaries(value, KEYRING_CHUNK_LEN);
      assert IsSplitOf(parts, value);
      for i := 0 to |parts|
        invariant WrittenTo(old(store.entries), store.entries, key, parts, i, |parts|)
      {
        PartSet(old(store.entries), store.entries, key, parts, i);
        var put := store.Set(key(i), parts[i]);
        if put.Err? {
          return Err(put.error);
        }
      }
      ghost var written := store.entries;
      var deleted := DeleteFrom(|parts|);
      ghost var cut :| CutTo(written, store.entries, key, |parts|, cut);
      LeftoversCut(old(store.entries), written, store.entries, key, parts, cut);
      if deleted.Err? {
        return Err(deleted.error);
      }
      assert Holds(store.entries, key, parts);
      r := Ok(());
    }
  }

  lemma OneFewer(entries: Entries, k: string)
    requires k in entries
    ensures |entries - {k}| < |entries|
  {
  }

  // ---- reading what was written ------------------------------------------------------------

  /** What is stored determines its parts. */
  lemma PartsAreUnique(entries: Entries, key: Keys, a: seq<Bytes>, b: seq<Bytes>)
    requires Holds(entries, key, a) && Holds(entries, key, b)
    ensures a == b
  {
  }

  /** No part of a split is empty, so only the empty value has no parts. */
  lemma EmptyHasNoParts(parts: seq<Bytes>, value: Bytes)
    requires IsSplitOf(parts, value)
    ensures value == [] <==> parts == []
  {
    assert parts != [] ==> parts[|parts| - 1] in parts;
  }

  /** After a completed write, whatever the store held before and however it was written, a read
      that completes returns the value, or none for the empty one. */
  method WriteThenRead(store: ChunkStore, name: string, value: Bytes)
    returns (w: Result<(), Fault>, r: Result<Option<Bytes>, Fault>)
    requires Utf8(value)
    modifies store
    ensures w.Ok? && r.Ok? ==> r.value == if value == [] then None else Some(value)
    ensures forall other, i :: other != name ==>
              Same(old(store.entries), store.entries, ChunkKey(other, i))
  {
    var entry := new LongKeyringEntry(store, name);
    w := entry.Write(value);
    ghost var written := store.entries;
    assert OthersKept(old(store.entries), written, entry.key);
    r := entry.Read();
    forall other, i | other != name
      ensures Same(old(store.entries), store.entries, ChunkKey(other, i))
    {
      OtherNames(entry.key, name, other, i);
    }
    if w.Ok? && r.Ok? {
      ghost var parts :| IsSplitOf(parts, value) && Holds(written, entry.key, parts);
      ghost var read :| Holds(written, entry.key, read)
        && r.value == if read == [] then None else Some(Concat(read));
      PartsAreUnique(written, entry.key, parts, read);
      EmptyHasNoParts(parts, value);
    }
  }

  lemma OtherNames(key: Keys, name: string, other: string, i: nat)
    requires other != name && forall j :: key(j) == ChunkKey(name, j)
    ensures !IsPartKey(key, ChunkKey(other, i))
  {
    forall j: nat
      ensures key(j) != ChunkKey(other, i)
    {
      if ChunkKey(name, j) == ChunkKey(other, i) {
        ChunkKeyInjective(name, j, other, i);
      }
    }
  }

  // ---- a write that fails ------------------------------------------------------------------

  /** The parts stored from the `i`th on, up to the first one missing. */
  ghost function StoredFrom(entries: Entries, key: Keys, i: nat): seq<Bytes>
    decreases |entries|
  {
    if key(i) !in entries then []
    else
      OneFewer(entries, key(i));
      [entries[key(i)]] + StoredFrom(entries - {key(i)}, key, i + 1)
  }

  lemma {:induction false} StoredFromFacts(entries: Entries, key: Keys, i: nat)
    requires Injective(key)
    ensures var parts := StoredFrom(entries, key, i);
            && (forall k: nat :: i <= k < i + |parts| ==>
                  key(k) in entries && entries[key(k)] == parts[k - i])
            && key(i + |parts|) !in entries
    decreases |entries|
  {
    if key(i) in entries {
      var rest := entries - {key(i)};
      OneFewer(entries, key(i));
      StoredFromFacts(rest, key, i + 1);
      var parts, tail := StoredFrom(entries, key, i), StoredFrom(rest, key, i + 1);
      assert parts == [entries[key(i)]] + tail;
      forall k: nat | i <= k < i + |parts|
        ensures key(k) in entries && entries[key(k)] == parts[k - i]
      {
        if k > i {
          assert key(k) in rest && parts[k - i] == tail[k - i - 1];
        }
      }
      assert key(i + |parts|) !in rest && key(i + |parts|) != key(i);
    }
  }

  /** What is stored is what is stored from the first part on. */
  lemma StoredIsHeld(entries: Entries, key: Keys)
    requires Injective(key)
    ensures Holds(entries, key, StoredFrom(entries, key, 0))
  {
    StoredFromFacts(entries, key, 0);
  }

  /** The parts a read finds after a write that got that far. */
  ghost function ReadBack(before: Entries, key: Keys, parts: seq<Bytes>, done: nat, cut: nat): seq<Bytes>
    requires done <= |parts|
  {
    if cut > |parts| then parts else parts[..done] + StoredFrom(before, key, done)
  }

  /** A write that fails leaves the parts set so far followed by what was stored behind them; once it
      has deleted one leftover, the new value. */
  lemma FailedWriteMixes(before: Entries, after: Entries, key: Keys, parts: seq<Bytes>, done: nat, cut: nat)
    requires Injective(key) && WrittenTo(before, after, key, parts, done, cut)
    ensures Holds(after, key, ReadBack(before, key, parts, done, cut))
  {
    if cut == |parts| {
      StoredFromFacts(before, key, done);
      var tail := StoredFrom(before, key, done);
      var all := parts[..done] + tail;
      forall k: nat | k < |all|
        ensures key(k) in after && after[key(k)] == all[k]
      {
        if k >= done {
          assert Same(before, after, key(k));
        }
      }
      assert Same(before, after, key(done + |tail|));
    }
  }

  lemma {:induction false} ConcatAppend(a: seq<Bytes>, b: seq<Bytes>)
    ensures Concat(a + b) == Concat(a) + Concat(b)
    decreases |b|
  {
    if b == [] {
      assert a + b == a;
    } else {
      var init, last := b[..|b| - 1], b[|b| - 1];
      assert a + b == (a + init) + [last];
      ConcatAppend(a, init);
      ConcatSnoc(a + init, last);
    }
  }

  lemma SplitConcat(parts: seq<Bytes>, i: nat)
    requires i <= |parts|
    ensures Concat(parts) == Concat(parts[..i]) + Concat(parts[i..])
  {
    assert parts == parts[..i] + parts[i..];
    ConcatAppend(parts[..i], parts[i..]);
  }

  /** It reads back as the new value exactly if a leftover was deleted or what was stored behind the
      parts set says the same as the parts not set. */
  lemma ReadsBackNewExactly(before: Entries, key: Keys, parts: seq<Bytes>, done: nat, cut: nat)
    requires done <= |parts| <= cut
    ensures Concat(ReadBack(before, key, parts, done, cut)) == Concat(parts) <==>
            cut > |parts| || Concat(StoredFrom(before, key, done)) == Concat(parts[done..])
  {
    SplitConcat(parts, done);
    ConcatAppend(parts[..done], StoredFrom(before, key, done));
    var head, a, b := Concat(parts[..done]), Concat(StoredFrom(before, key, done)), Concat(parts[done..]);
    Cancel(head, a, b);
  }

  lemma Cancel(head: Bytes, a: Bytes, b: Bytes)
    ensures head + a == head + b <==> a == b
  {
    if head + a == head + b {
      assert (head + a)[|head|..] == a && (head + b)[|head|..] == b;
    }
  }

  lemma CancelEnd(a: Bytes, b: Bytes, end: Bytes)
    ensures a + end == b + end <==> a == b
  {
    if a + end == b + end {
      assert |a| == |b| && (a + end)[..|a|] == a && (b + end)[..|b|] == b;
    }
  }

  /** And as the old value exactly if: a leftover deleted, both values are the same; the parts set no
      more than were stored, they say the same as those they replaced; more of them, they and what
      was stored out of reach behind them say the same as the old value. */
  lemma ReadsBackOldExactly(before: Entries, key: Keys, parts: seq<Bytes>, done: nat, cut: nat)
    requires Injective(key) && done <= |parts| <= cut
    ensures Holds(before, key, StoredFrom(before, key, 0))
    ensures var stored := StoredFrom(before, key, 0);
            Concat(ReadBack(before, key, parts, done, cut)) == Concat(stored) <==>
            if cut > |parts| then Concat(parts) == Concat(stored)
            else if done <= |stored| then Concat(parts[..done]) == Concat(stored[..done])
            else Concat(parts[..done]) + Concat(StoredFrom(before, key, done)) == Concat(stored)
  {
    var stored, tail := StoredFrom(before, key, 0), StoredFrom(before, key, done);
    StoredIsHeld(before, key);
    ConcatAppend(parts[..done], tail);
    if done <= |stored| {
      StoredSuffix(before, key, done);
      SplitConcat(stored, done);
      CancelEnd(Concat(parts[..done]), Concat(stored[..done]), Concat(tail));
    }
  }

  lemma StoredSuffix(entries: Entries, key: Keys, i: nat)
    requires Injective(key) && i <= |StoredFrom(entries, key, 0)|
    ensures StoredFrom(entries, key, i) == StoredFrom(entries, key, 0)[i..]
  {
    var stored, tail := StoredFrom(entries, key, 0), StoredFrom(entries, key, i);
    StoredFromFacts(entries, key, 0);
    StoredFromFacts(entries, key, i);
    assert key(|stored|) !in entries && key(i + |tail|) !in entries;
    assert i + |tail| == |stored|;
    forall k: nat | k < |tail|
      ensures tail[k] == stored[i..][k]
    {
      assert entries[key(i + k)] == tail[k];
    }
  }
}
