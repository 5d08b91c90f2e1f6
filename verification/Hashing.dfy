/** Equality and hashing of the values that can be keys, and the slots of an open-addressing table. */
module Hashing {
  import opened Arithmetic
  import opened Values

  // ---------------------------------------------------------------------
  // Equality and hash codes
  // ---------------------------------------------------------------------

  /** Value equality without floats: a boolean equals the integer 0 or 1. */
  predicate ValueEqual(a: Value, b: Value)
  {
    match (a, b)
    case (Nil, Nil) => true
    case (Bool(x), Bool(y)) => x == y
    case (Int(x), Int(y)) => x == y
    case (Bool(x), Int(y)) => y == if x then 1 else 0
    case (Int(x), Bool(y)) => x == if y then 1 else 0
    case (Str(x), Str(y)) => x == y
    case (Obj(x, g), Obj(y, h)) => x == y && g == h
    case _ => false
  }

  /** The map asks only whether there is a hash slot. */
  predicate Hashable(v: Value)
  {
    !(v.Obj? && v.hash.NoHash?)
  }

  function FnvByte(h: bv32, b: int): bv32
    requires 0 <= b < 0x100
  {
    (h ^ (b as bv32)) * 16777619
  }

  function Fnv(h: bv32, s: string): bv32
    decreases |s|
  {
    if s == [] then h else Fnv(FnvByte(h, (s[0] as int) % 0x100), s[1..])
  }

  /** FNV-1a over the bytes of a string, with 0 kept for "not computed". */
  function HashText(t: Text): uint32
  {
    var h := Fnv(2166136261, t.chars);
    if h == 0 then 1 else h as int
  }

  function HashOf(v: Value): uint32
    requires Hashable(v)
  {
    match v
    case Nil => 0
    case Bool(b) => if b then 1 else 0
    case Int(i) => i % 0x1_0000_0000
    case Str(s) => HashText(s)
    case Obj(_, h) => if h.GoodHash? then h.h else 0
  }

  /** One representative for each class of equal values. */
  function Canon(v: Value): Value
  {
    if v.Bool? then Int(if v.b then 1 else 0) else v
  }

  lemma EqualIsCanonical(a: Value, b: Value)
    ensures ValueEqual(a, b) <==> Canon(a) == Canon(b)
  {
  }

  /** Without this the probe would look for equal keys in different places. */
  lemma EqualKeysHashAlike(a: Value, b: Value)
    requires Hashable(a) && Canon(a) == Canon(b)
    ensures Hashable(b) && HashOf(a) == HashOf(b)
  {
    hide HashText;
  }

  /** Equality is an equivalence; across kinds only booleans and integers can be equal, as 0 and 1. */
  lemma EqualityIs(a: Value, b: Value, c: Value)
    ensures ValueEqual(a, a) && ValueEqual(a, b) == ValueEqual(b, a) && (ValueEqual(a, b) && ValueEqual(b, c) ==> ValueEqual(a, c))
    ensures forall b: bool, i :: ValueEqual(Bool(b), Int(i)) <==> i == if b then 1 else 0
    ensures ValueEqual(a, b) && a != b ==> (a.Bool? && b.Int?) || (a.Int? && b.Bool?)
  {
  }

  /** What has no hash is an error as a key, and that is only an object whose type has no hash slot. */
  lemma HashableIs(v: Value)
    ensures Hashable(v) <==> v.Nil? || v.Bool? || v.Int? || v.Str? || v.hash.BadHash? || v.hash.GoodHash?
  {
  }

  /** The hashes of small values, and known values of FNV-1a; no string has the hash 0. */
  lemma HashVectors(i: int, t: Text)
    ensures HashOf(Nil) == 0 && HashOf(Bool(false)) == 0 && HashOf(Bool(true)) == 1 && HashOf(Obj(0, BadHash)) == 0
    ensures 0 <= i < 0x1_0000_0000 ==> HashOf(Int(i)) == i
    ensures HashOf(Int(i)) == HashOf(Int(i + 0x1_0000_0000))
    ensures HashOf(Str(Text(""))) == 0x811c_9dc5 && HashOf(Str(Text("a"))) == 0xe40c_292c
    ensures HashOf(Str(t)) != 0 && (Fnv(2166136261, t.chars) == 0 ==> HashOf(Str(t)) == 1)
  {
    hide FnvByte;
    OneByte();
    assert Fnv(2166136261, "a") == Fnv(FnvByte(2166136261, 97), []);
  }

  lemma OneByte()
    ensures FnvByte(2166136261, 97) == 0xe40c_292c
  {
  }

  // ---------------------------------------------------------------------
  // Tuples
  // ---------------------------------------------------------------------

  /** The four bytes of an element's hash, lowest first. */
  function FnvWord(h: bv32, w: uint32): bv32
  {
    FnvByte(FnvByte(FnvByte(FnvByte(h, w % 0x100), w / 0x100 % 0x100), w / 0x1_0000 % 0x100), w / 0x100_0000)
  }

  function HashItems(h: bv32, items: seq<Value>): Option<bv32>
    decreases |items|
  {
    if items == [] then Some(h)
    else if !Hashable(items[0]) || (items[0].Obj? && items[0].hash.BadHash?) then None
    else HashItems(FnvWord(h, HashOf(items[0])), items[1..])
  }

  /** FNV-1a over the hashes of the elements. */
  function TupleHash(items: seq<Value>): ObjHash
  {
    var h := HashItems(2166136261, items);
    if h.None? then BadHash else GoodHash(if h.value == 0 then 1 else h.value as int)
  }

  predicate SameItems(a: seq<Value>, b: seq<Value>)
  {
    |a| == |b| && forall i :: 0 <= i < |a| ==> ValueEqual(a[i], b[i])
  }

  lemma {:induction false} ItemsHashAlike(h: bv32, a: seq<Value>, b: seq<Value>)
    requires SameItems(a, b)
    ensures HashItems(h, a) == HashItems(h, b)
    decreases |a|
  {
    hide FnvWord, ValueEqual, HashText;
    if a != [] {
      EqualIsCanonical(a[0], b[0]);
      if Hashable(a[0]) {
        EqualKeysHashAlike(a[0], b[0]);
        ItemsHashAlike(FnvWord(h, HashOf(a[0])), a[1..], b[1..]);
      }
    }
  }

  /** Tuples of equal elements may stand for one key: their slots give the same, `(1, 2)` and `(true, 2)` included. */
  lemma TuplesHashAlike(a: seq<Value>, b: seq<Value>)
    requires SameItems(a, b)
    ensures TupleHash(a) == TupleHash(b)
  {
    hide HashItems;
    ItemsHashAlike(2166136261, a, b);
  }

  /** Known values, with the bytes of an element's hash lowest first. */
  lemma TupleVectors()
    ensures TupleHash([]) == GoodHash(0x811c_9dc5) && TupleHash([Int(1)]) == GoodHash(0xfb69_b604)
  {
    hide FnvByte;
    OneWord();
    assert [Int(1)][1..] == [];
    assert HashItems(2166136261, [Int(1)]) == HashItems(FnvWord(2166136261, 1), []);
  }

  lemma OneWord()
    ensures FnvWord(2166136261, 1) == 0xfb69_b604
  {
    var h1 := FnvByte(2166136261, 1);
    var h2 := FnvByte(h1, 0);
    var h3 := FnvByte(h2, 0);
    assert FnvByte(h3, 0) == 0xfb69_b604;
  }

  /** Hashing fails exactly at an element that cannot be hashed, and never gives 0, which stands for "not computed". */
  lemma TupleFails(items: seq<Value>)
    ensures TupleHash(items).BadHash? <==> exists i :: 0 <= i < |items| && items[i].Obj? && !items[i].hash.GoodHash?
    ensures TupleHash(items) != NoHash && (TupleHash(items).GoodHash? ==> TupleHash(items).h != 0)
  {
    hide HashItems;
    ItemsFail(2166136261, items);
  }

  lemma {:induction false} ItemsFail(h: bv32, items: seq<Value>)
    ensures HashItems(h, items).None? <==> exists i :: 0 <= i < |items| && items[i].Obj? && !items[i].hash.GoodHash?
    decreases |items|
  {
    hide FnvWord, HashOf;
    if items != [] && !(items[0].Obj? && !items[0].hash.GoodHash?) {
      ItemsFail(FnvWord(h, HashOf(items[0])), items[1..]);
      assert forall i :: 1 <= i < |items| ==> items[i] == items[1..][i - 1];
    }
  }

  // ---------------------------------------------------------------------
  // Slots
  // ---------------------------------------------------------------------

  const TOMBSTONE_HASH: uint32 := 0xFFFF_FFFF

  /** When a slot is not occupied, its hash field tells a deleted entry from a slot never used. */
  datatype Entry = Entry(key: Value, value: Value, hash: uint32, occupied: bool)

  datatype Kind = Never | Tombstone | Live

  /** A zeroed slot. */
  const EMPTY := Entry(Nil, Nil, 0, false)

  function KindOf(e: Entry): Kind
  {
    if e.occupied then Live else if e.hash == TOMBSTONE_HASH then Tombstone else Never
  }

  type Slots = seq<Entry>

  function Home(hash: uint32, cap: nat): nat
    requires cap > 0
  {
    hash % cap
  }

  function Next(i: nat, cap: nat): nat
    requires i < cap
  {
    if i + 1 == cap then 0 else i + 1
  }

  /** Is j visited when probing from h up to, but not including, i, wrapping around at the end? */
  predicate OnPath(h: nat, i: nat, j: nat)
  {
    if h <= i then h <= j < i else h <= j || j < i
  }

  predicate Clear(s: Slots, h: nat, i: nat)
  {
    forall j :: 0 <= j < |s| && OnPath(h, i, j) ==> KindOf(s[j]) != Never
  }

  predicate Matches(e: Entry, key: Value)
  {
    e.occupied && Canon(e.key) == Canon(key)
  }

  predicate GoodEntry(s: Slots, i: nat)
    requires i < |s|
  {
    s[i].occupied ==> Hashable(s[i].key) && s[i].hash == HashOf(s[i].key) && Clear(s, Home(s[i].hash, |s|), i)
  }

  /** No two live slots hold equal keys. */
  ghost predicate Distinct(s: Slots)
  {
    forall i, j :: 0 <= i < |s| && 0 <= j < |s| && s[i].occupied && Matches(s[j], s[i].key) ==> i == j
  }

  /** Every live entry can be found from its home slot, and no key is stored twice. */
  ghost predicate Probing(s: Slots)
  {
    |s| > 0
    && (forall i :: 0 <= i < |s| ==> GoodEntry(s, i))
    && Distinct(s)
  }

  predicate AllLive(s: Slots, h: nat, i: nat)
  {
    forall j :: 0 <= j < |s| && OnPath(h, i, j) ==> s[j].occupied
  }

  /** The slot that probing for a key returns: the key's own, or else the first on its path that is not live. */
  ghost predicate SlotFor(s: Slots, key: Value, r: nat)
    requires Hashable(key)
  {
    r < |s|
    && if s[r].occupied then Matches(s[r], key)
       else AllLive(s, Home(HashOf(key), |s|), r) && forall j :: 0 <= j < |s| ==> !Matches(s[j], key)
  }

  lemma PathToMatch(s: Slots, key: Value, j: nat)
    requires Probing(s) && Hashable(key) && j < |s|
    ensures Matches(s[j], key) ==> Clear(s, Home(HashOf(key), |s|), j)
  {
    hide HashOf, Home, Clear;
    assert GoodEntry(s, j);
    if Matches(s[j], key) {
      EqualKeysHashAlike(key, s[j].key);
    }
  }

  lemma OneBeforeTheOther(h: nat, i: nat, j: nat)
    ensures i == j || OnPath(h, i, j) || OnPath(h, j, i)
  {
  }

  /** A never-used slot ends every probe: nothing beyond it on the path can hold the key. */
  lemma NotBeyond(s: Slots, key: Value, e: nat)
    requires Probing(s) && Hashable(key) && e < |s| && KindOf(s[e]) == Never
    requires forall j :: 0 <= j < |s| && OnPath(Home(HashOf(key), |s|), e, j) ==> !Matches(s[j], key)
    ensures forall j :: 0 <= j < |s| ==> !Matches(s[j], key)
  {
    hide HashOf, Home;
    var h := Home(HashOf(key), |s|);
    forall j | 0 <= j < |s|
      ensures !Matches(s[j], key)
    {
      PathToMatch(s, key, j);
      OneBeforeTheOther(h, e, j);
    }
  }

  // ---------------------------------------------------------------------
  // Counting
  // ---------------------------------------------------------------------

  function Count(s: Slots, k: Kind): (n: nat)
    ensures n <= |s|
  {
    if s == [] then 0 else Count(s[..|s| - 1], k) + if KindOf(s[|s| - 1]) == k then 1 else 0
  }

  lemma {:induction false} CountAll(s: Slots)
    ensures Count(s, Never) + Count(s, Tombstone) + Count(s, Live) == |s|
  {
    if s != [] {
      CountAll(s[..|s| - 1]);
    }
  }

  lemma {:induction false} CountSome(s: Slots, k: Kind)
    requires Count(s, k) > 0
    ensures exists i :: 0 <= i < |s| && KindOf(s[i]) == k
  {
    if KindOf(s[|s| - 1]) != k {
      CountSome(s[..|s| - 1], k);
    }
  }

  lemma {:induction false} CountNone(s: Slots, k: Kind)
    requires forall i :: 0 <= i < |s| ==> KindOf(s[i]) != k
    ensures Count(s, k) == 0
  {
    if s != [] {
      CountNone(s[..|s| - 1], k);
    }
  }

  lemma {:induction false} CountUpdate(s: Slots, i: nat, e: Entry, k: Kind)
    requires i < |s|
    ensures Count(s[i := e], k) == Count(s, k) - (if KindOf(s[i]) == k then 1 else 0) + (if KindOf(e) == k then 1 else 0)
  {
    var n := |s| - 1;
    if i == n {
      assert s[i := e][..n] == s[..n];
    } else {
      assert s[i := e][..n] == s[..n][i := e];
      CountUpdate(s[..n], i, e, k);
    }
  }

  lemma {:induction false} CountPrefix(s: Slots, i: nat, k: Kind)
    requires i <= |s|
    ensures Count(s[..i], k) <= Count(s, k)
  {
    if i < |s| {
      assert s[..|s| - 1][..i] == s[..i];
      CountPrefix(s[..|s| - 1], i, k);
    } else {
      assert s[..i] == s;
    }
  }

  // ---------------------------------------------------------------------
  // The map a table stands for
  // ---------------------------------------------------------------------

  /** What a table stores for a class of equal keys: the key as last given, and the value. */
  datatype Cell = Cell(key: Value, value: Value)

  type Dict = map<Value, Cell>

  function ContentsOf(s: Slots): Dict
  {
    if s == [] then map[] else
    var e := s[|s| - 1];
    var d := ContentsOf(s[..|s| - 1]);
    if e.occupied then d[Canon(e.key) := Cell(e.key, e.value)] else d
  }

  lemma DistinctPrefix(s: Slots, n: nat)
    requires Distinct(s) && n <= |s|
    ensures Distinct(s[..n])
  {
    forall i, j | 0 <= i < n && 0 <= j < n && s[..n][i].occupied && Matches(s[..n][j], s[..n][i].key)
      ensures i == j
    {
      assert s[..n][i] == s[i] && s[..n][j] == s[j];
    }
  }

  lemma {:induction false} StoredIn(s: Slots, i: nat)
    requires Distinct(s) && i < |s| && s[i].occupied
    ensures Canon(s[i].key) in ContentsOf(s) && ContentsOf(s)[Canon(s[i].key)] == Cell(s[i].key, s[i].value)
  {
    var n := |s| - 1;
    if i < n {
      DistinctPrefix(s, n);
      StoredIn(s[..n], i);
      assert s[n].occupied ==> !Matches(s[n], s[i].key);
    }
  }

  lemma {:induction false} StoredAt(s: Slots, k: Value) returns (i: nat)
    requires k in ContentsOf(s)
    ensures i < |s| && s[i].occupied && Canon(s[i].key) == k
  {
    var n := |s| - 1;
    if s[n].occupied && Canon(s[n].key) == k {
      i := n;
    } else {
      i := StoredAt(s[..n], k);
    }
  }

  lemma {:induction false} NotStored(s: Slots, k: Value)
    requires forall j :: 0 <= j < |s| && s[j].occupied ==> Canon(s[j].key) != k
    ensures k !in ContentsOf(s)
  {
    if k in ContentsOf(s) {
      var i := StoredAt(s, k);
    }
  }

  lemma {:induction false} ContentsSize(s: Slots)
    requires Distinct(s)
    ensures |ContentsOf(s)| == Count(s, Live)
  {
    if s != [] {
      var n := |s| - 1;
      DistinctPrefix(s, n);
      ContentsSize(s[..n]);
      if s[n].occupied {
        forall j | 0 <= j < n && s[..n][j].occupied
          ensures Canon(s[..n][j].key) != Canon(s[n].key)
        {
          assert s[..n][j] == s[j];
        }
        NotStored(s[..n], Canon(s[n].key));
      }
    }
  }

  lemma {:induction false} ContentsEmpty(s: Slots)
    requires forall i :: 0 <= i < |s| ==> !s[i].occupied
    ensures ContentsOf(s) == map[]
  {
    if s != [] {
      ContentsEmpty(s[..|s| - 1]);
    }
  }

  /** Writing a live entry into a free slot, or over an entry with an equal key. */
  lemma {:induction false} ContentsPut(s: Slots, r: nat, e: Entry)
    requires r < |s| && e.occupied && (s[r].occupied ==> Matches(s[r], e.key))
    requires forall j :: 0 <= j < |s| && Matches(s[j], e.key) ==> j == r
    ensures ContentsOf(s[r := e]) == ContentsOf(s)[Canon(e.key) := Cell(e.key, e.value)]
  {
    var n := |s| - 1;
    var t := s[r := e];
    if r == n {
      assert t[..n] == s[..n];
    } else {
      assert t[..n] == s[..n][r := e];
      forall j | 0 <= j < n && Matches(s[..n][j], e.key)
        ensures j == r
      {
        assert s[..n][j] == s[j];
      }
      ContentsPut(s[..n], r, e);
      assert !Matches(s[n], e.key);
    }
  }

  /** Emptying the only slot that holds a key. */
  lemma {:induction false} ContentsDrop(s: Slots, r: nat, e: Entry)
    requires r < |s| && s[r].occupied && !e.occupied
    requires forall j :: 0 <= j < |s| && Matches(s[j], s[r].key) ==> j == r
    ensures ContentsOf(s[r := e]) == ContentsOf(s) - {Canon(s[r].key)}
  {
    var n := |s| - 1;
    var t := s[r := e];
    if r == n {
      assert t[..n] == s[..n];
      forall j | 0 <= j < n && s[..n][j].occupied
        ensures Canon(s[..n][j].key) != Canon(s[n].key)
      {
        assert s[..n][j] == s[j];
      }
      NotStored(s[..n], Canon(s[n].key));
    } else {
      assert t[..n] == s[..n][r := e];
      forall j | 0 <= j < n && Matches(s[..n][j], s[..n][r].key)
        ensures j == r
      {
        assert s[..n][j] == s[j];
      }
      ContentsDrop(s[..n], r, e);
      assert !Matches(s[n], s[r].key);
    }
  }

  // ---------------------------------------------------------------------
  // Updates keep the table searchable
  // ---------------------------------------------------------------------

  /** Changing a slot to something other than never-used keeps every path clear. */
  lemma ClearAfter(s: Slots, r: nat, e: Entry, h: nat, i: nat)
    requires r < |s| && KindOf(e) != Never && Clear(s, h, i)
    ensures Clear(s[r := e], h, i)
  {
  }

  lemma PathIsClear(s: Slots, h: nat, r: nat)
    requires r < |s| && (s[r].occupied ==> Clear(s, h, r)) && (!s[r].occupied ==> AllLive(s, h, r))
    ensures Clear(s, h, r)
  {
  }

  lemma ProbingPut(s: Slots, r: nat, e: Entry)
    requires Probing(s) && e.occupied && Hashable(e.key) && e.hash == HashOf(e.key) && SlotFor(s, e.key, r)
    ensures Probing(s[r := e])
  {
    hide HashOf, Home, Clear;
    var t := s[r := e];
    forall i | 0 <= i < |t|
      ensures GoodEntry(t, i)
    {
      assert GoodEntry(s, i) && GoodEntry(s, r);
      if i == r {
        if s[r].occupied {
          EqualKeysHashAlike(e.key, s[r].key);
        }
        PathIsClear(s, Home(e.hash, |s|), r);
        ClearAfter(s, r, e, Home(e.hash, |s|), r);
      } else if t[i].occupied {
        ClearAfter(s, r, e, Home(s[i].hash, |s|), i);
      }
    }
    forall k | 0 <= k < |s| && Matches(s[k], e.key)
      ensures k == r
    {
      if s[r].occupied {
        assert Matches(s[k], s[r].key);
      }
    }
    forall i, j | 0 <= i < |t| && 0 <= j < |t| && t[i].occupied && Matches(t[j], t[i].key)
      ensures i == j
    {
      assert i != r ==> !Matches(s[i], e.key);
      if i != r && j != r {
        assert Matches(s[j], s[i].key);
      }
    }
  }

  lemma ProbingDrop(s: Slots, r: nat, e: Entry)
    requires Probing(s) && r < |s| && KindOf(e) == Tombstone
    ensures Probing(s[r := e])
  {
    hide HashOf, Home, Clear;
    var t := s[r := e];
    forall i | 0 <= i < |t|
      ensures GoodEntry(t, i)
    {
      assert GoodEntry(s, i);
      if t[i].occupied {
        ClearAfter(s, r, e, Home(s[i].hash, |s|), i);
      }
    }
    forall i, j | 0 <= i < |t| && 0 <= j < |t| && t[i].occupied && Matches(t[j], t[i].key)
      ensures i == j
    {
      assert Matches(s[j], s[i].key);
    }
  }

  lemma {:induction false} ProbingEmpty(s: Slots)
    requires |s| > 0 && forall i :: 0 <= i < |s| ==> s[i] == EMPTY
    ensures Probing(s) && ContentsOf(s) == map[]
    ensures Count(s, Live) == 0 && Count(s, Tombstone) == 0
  {
    ContentsEmpty(s);
    CountNone(s, Live);
    CountNone(s, Tombstone);
  }
}
