/**
  The mutable hash map: linear probing in an array, tombstones, cached hashes, growth at three quarters.

  Every operation is specified by its effect on `Contents`, a mathematical map from classes of equal
  keys to the stored key and value. The set type uses the same table with nil for every value.
*/
module HashMap {
  import opened Values
  import opened Arithmetic
  import opened Hashing

  /** A method's answer; `Error` is the error value that stands for TypeError and KeyError. */
  datatype Reply = Ok(v: Value) | Error

  method RoundUpPow2(n: nat) returns (p: nat)
    ensures PowerOfTwo(p) && p >= 8 && p >= n
    ensures p == 8 || p < 2 * n
    ensures PowerOfTwo(n) && n >= 8 ==> p == n
  {
    assert PowerOfTwo(2) && PowerOfTwo(4);
    p := 8;
    while p < n
      invariant PowerOfTwo(p) && p >= 8 && (p == 8 || p < 2 * n)
      invariant PowerOfTwo(n) && n >= 8 ==> p <= n
    {
      if PowerOfTwo(n) {
        PowerGap(p, n);
      }
      p := p * 2;
    }
  }

  method AllocZeroed(cap: nat) returns (entries: array<Entry>)
    ensures fresh(entries) && entries.Length == cap
    ensures forall i :: 0 <= i < cap ==> entries[i] == EMPTY
  {
    entries := new Entry[cap](_ => EMPTY);
  }

  /**
    The probe loop. It has no bound of its own: it ends because some slot was never used. It prefers
    the first tombstone on its way to that slot.
  */
  method FindSlot(entries: array<Entry>, key: Value, hash: uint32) returns (r: nat)
    requires Hashable(key) && hash == HashOf(key) && PowerOfTwo(entries.Length)
    requires Probing(entries[..]) && Count(entries[..], Never) > 0
    ensures SlotFor(entries[..], key, r)
  {
    hide HashOf, Count, PowerOfTwo, BitAnd;
    ghost var s := entries[..];
    CountSome(s, Never);
    ghost var stop: nat :| stop < |s| && KindOf(s[stop]) == Never;
    MaskIsRemainder(hash, entries.Length);
    var idx := BitAnd(hash, entries.Length - 1);
    ghost var h := idx;
    var tombstone := -1;
    while true
      invariant 0 <= idx < |s| && s == entries[..]
      invariant forall j :: 0 <= j < |s| && OnPath(h, idx, j) ==> KindOf(s[j]) != Never && !Matches(s[j], key)
      invariant -1 <= tombstone < |s|
      invariant tombstone >= 0 ==> KindOf(s[tombstone]) == Tombstone && OnPath(h, idx, tombstone) && AllLive(s, h, tombstone)
      invariant tombstone < 0 ==> AllLive(s, h, idx)
      decreases if idx <= stop then stop - idx else |s| - idx + stop
    {
      var e := entries[idx];
      assert e == s[idx];
      if !e.occupied {
        if e.hash == TOMBSTONE_HASH {
          if tombstone < 0 {
            tombstone := idx;
          }
        } else {
          NotBeyond(s, key, idx);
          return if tombstone >= 0 then tombstone else idx;
        }
      } else if e.hash == hash && ValueEqual(e.key, key) {
        EqualIsCanonical(e.key, key);
        return idx;
      } else {
        assert GoodEntry(s, idx);
        Mismatch(e, key, hash);
      }
      MaskIsRemainder(idx + 1, |s|);
      WrapAround(idx, |s|);
      Advance(h, idx, stop, |s|);
      idx := BitAnd(idx + 1, entries.Length - 1);
    }
  }

  lemma Mismatch(e: Entry, key: Value, hash: uint32)
    requires Hashable(key) && hash == HashOf(key) && e.occupied && Hashable(e.key) && e.hash == HashOf(e.key)
    requires !(e.hash == hash && ValueEqual(e.key, key))
    ensures !Matches(e, key)
  {
    EqualIsCanonical(e.key, key);
    if Canon(e.key) == Canon(key) {
      EqualKeysHashAlike(key, e.key);
    }
  }

  lemma WrapAround(i: nat, cap: nat)
    requires i < cap
    ensures (i + 1) % cap == Next(i, cap)
  {
  }

  /** One step of the probe: the path grows by the slot just passed, and gets closer to the slot that ends it. */
  lemma Advance(h: nat, i: nat, stop: nat, cap: nat)
    requires h < cap && i < cap && stop < cap && i != stop && !OnPath(h, i, stop)
    ensures forall j :: 0 <= j < cap ==> (OnPath(h, Next(i, cap), j) <==> OnPath(h, i, j) || j == i)
  {
  }

  class Table {
    var len: nat
    var cap: nat
    var tombstones: nat
    var entries: array<Entry>

    ghost predicate Valid()
      reads this, entries
    {
      cap == entries.Length && PowerOfTwo(cap) && cap >= 8
      && Probing(entries[..])
      && len == Count(entries[..], Live) && tombstones == Count(entries[..], Tombstone)
      && (len + tombstones) * 4 <= cap * 3
    }

    ghost function Contents(): Dict
      reads this, entries
    {
      ContentsOf(entries[..])
    }

    /** The load factor leaves room to stop probing at. */
    lemma Room()
      requires Valid()
      ensures Count(entries[..], Never) == cap - len - tombstones > 0
    {
      CountAll(entries[..]);
    }

    lemma SizeIsLen()
      requires Valid()
      ensures |Contents()| == len
    {
      ContentsSize(entries[..]);
    }

    constructor (initCap: nat)
      ensures Valid() && fresh(entries) && Contents() == map[]
      ensures PowerOfTwo(initCap) && initCap >= 8 ==> cap == initCap
    {
      var c := RoundUpPow2(initCap);
      var zeroed := AllocZeroed(c);
      len, cap, tombstones, entries := 0, c, 0, zeroed;
      new;
      ProbingEmpty(entries[..]);
    }

    /** Where the key is, or could be put; -1 stands for the null pointer returned for an empty table. */
    method LookupEntry(key: Value) returns (i: int, hash: uint32, ok: bool)
      requires Valid()
      ensures ok == Hashable(key)
      ensures ok ==> hash == HashOf(key) && -1 <= i < cap
      ensures ok && (i < 0 || !entries[i].occupied) ==> Canon(key) !in Contents()
      ensures ok && i >= 0 && entries[i].occupied ==>
                Matches(entries[i], key) && Canon(key) in Contents()
                && Contents()[Canon(key)] == Cell(entries[i].key, entries[i].value)
    {
      hide Count, HashOf, ContentsOf, PowerOfTwo;
      i, hash, ok := -1, 0, Hashable(key);
      if ok {
        hash := HashOf(key);
        if len > 0 {
          Room();
          i := FindSlot(entries, key, hash);
          Found(entries[..], key, i);
        } else {
          SizeIsLen();
        }
      }
    }

    /** Moves every live entry to a new array; tombstones are dropped. */
    method Resize(newCap: nat)
      requires Valid() && newCap == cap * 2
      modifies this
      ensures Valid() && fresh(entries)
      ensures Contents() == old(Contents())
      ensures cap == newCap && len == old(len) && tombstones == 0
    {
      hide Count, HashOf, ContentsOf, Probing;
      var bigger := AllocZeroed(newCap);
      ProbingEmpty(bigger[..]);
      ghost var s := entries[..];
      assert s[..0] == [];
      CountNone([], Live);
      ContentsEmpty([]);
      var i := 0;
      while i < cap
        modifies bigger
        invariant 0 <= i <= cap && bigger.Length == newCap
        invariant Probing(bigger[..]) && ContentsOf(bigger[..]) == ContentsOf(s[..i])
        invariant Count(bigger[..], Live) == Count(s[..i], Live) && Count(bigger[..], Tombstone) == 0
      {
        var e := entries[i];
        PrefixStep(s, i);
        if e.occupied {
          ProbingGives(s, i);
          CountAll(bigger[..]);
          CountPrefix(s, i, Live);
          var slot := FindSlot(bigger, e.key, e.hash);
          ghost var t := bigger[..];
          FreshKey(s, i, t, slot);
          bigger[slot] := e;
          assert bigger[..] == t[slot := e];
          PutEntry(t, slot, e);
        }
        i := i + 1;
      }
      assert s[..cap] == s;
      entries, cap, tombstones := bigger, newCap, 0;
      assert PowerOfTwo(newCap);
    }

    /** Grows if the table would become more than three quarters full, even when the key is already there. */
    method SetHashed(key: Value, val: Value, hash: uint32)
      requires Valid() && Hashable(key) && hash == HashOf(key)
      modifies this, entries
      ensures Valid() && (entries == old(entries) || fresh(entries))
      ensures Contents() == old(Contents())[Canon(key) := Cell(key, val)]
      ensures !old(Full()) ==> entries == old(entries) && cap == old(cap)
      ensures cap >= old(cap) && (old(Full()) ==> !Full())
      ensures Canon(key) in old(Contents()) && !old(Full()) ==> len == old(len) && tombstones == old(tombstones)
      ensures cap == if old(len + tombstones + 1) * 4 > old(cap) * 3 then old(cap) * 2 else old(cap)
      ensures len == old(len) + if Canon(key) in old(Contents()) then 0 else 1
    {
      hide Count, HashOf, ContentsOf, Probing, PowerOfTwo;
      if (len + tombstones + 1) * 4 > cap * 3 {
        Resize(if cap < 8 then 8 else cap * 2);
      }
      Room();
      ghost var s := entries[..];
      var r := FindSlot(entries, key, hash);
      Found(s, key, r);
      var e := entries[r];
      var isNew := !e.occupied;
      if isNew && e.hash == TOMBSTONE_HASH {
        CountUpdate(s, r, e.(occupied := true), Tombstone);
        tombstones := tombstones - 1;
      }
      entries[r] := Entry(key, val, hash, true);
      if isNew {
        len := len + 1;
      }
      assert entries[..] == s[r := Entry(key, val, hash, true)];
      PutEntry(s, r, Entry(key, val, hash, true));
    }

    /** Would inserting one more entry make the table grow first? */
    predicate Full()
      reads this
    {
      (len + tombstones + 1) * 4 > cap * 3
    }

    method Set(key: Value, val: Value) returns (r: Reply)
      requires Valid()
      modifies this, entries
      ensures Valid() && (entries == old(entries) || fresh(entries))
      ensures r == if Hashable(key) then Ok(Nil) else Error
      ensures Contents() == if Hashable(key) then old(Contents())[Canon(key) := Cell(key, val)] else old(Contents())
      ensures !old(Full()) ==> entries == old(entries) && cap == old(cap)
      ensures !Hashable(key) ==> len == old(len) && tombstones == old(tombstones) && entries == old(entries) && cap == old(cap)
      ensures Canon(key) in old(Contents()) && !old(Full()) ==> !Full()
      ensures cap >= old(cap) && (Hashable(key) && old(Full()) ==> !Full())
    {
      hide Count, HashOf, ContentsOf, Probing, PowerOfTwo;
      if !Hashable(key) {
        return Error;
      }
      SetHashed(key, val, HashOf(key));
      r := Ok(Nil);
    }

    method Get(key: Value) returns (r: Reply)
      requires Valid()
      ensures r == if !Hashable(key) then Error
                   else if Canon(key) in Contents() then Ok(Contents()[Canon(key)].value) else Ok(Nil)
    {
      r := GetDefault(key, Nil);
    }

    method GetDefault(key: Value, def: Value) returns (r: Reply)
      requires Valid()
      ensures r == if !Hashable(key) then Error
                   else if Canon(key) in Contents() then Ok(Contents()[Canon(key)].value) else Ok(def)
    {
      hide Count, HashOf, ContentsOf, Probing, PowerOfTwo;
      var i, _, ok := LookupEntry(key);
      if !ok {
        return Error;
      }
      r := Ok(if i >= 0 && entries[i].occupied then entries[i].value else def);
    }

    /** `m[key]`: here a missing key is an error. */
    method GetItem(key: Value) returns (r: Reply)
      requires Valid()
      ensures r == if Hashable(key) && Canon(key) in Contents() then Ok(Contents()[Canon(key)].value) else Error
    {
      hide Count, HashOf, ContentsOf, Probing, PowerOfTwo;
      var i, _, ok := LookupEntry(key);
      if !ok || i < 0 || !entries[i].occupied {
        return Error;
      }
      r := Ok(entries[i].value);
    }

    method Has(key: Value) returns (r: Reply)
      requires Valid()
      ensures r == if Hashable(key) then Ok(Bool(Canon(key) in Contents())) else Error
    {
      hide Count, HashOf, ContentsOf, Probing, PowerOfTwo;
      var i, _, ok := LookupEntry(key);
      if !ok {
        return Error;
      }
      r := Ok(Bool(i >= 0 && entries[i].occupied));
    }

    /** Turns a live slot into a tombstone; nothing moves. */
    method Bury(i: nat)
      requires Valid() && i < cap && entries[i].occupied
      modifies this`len, this`tombstones, entries
      ensures Valid()
      ensures Contents() == old(Contents()) - {Canon(old(entries[i].key))}
      ensures entries[..] == old(entries[..])[i := old(entries[i]).(occupied := false, hash := TOMBSTONE_HASH)]
      ensures len == old(len) - 1 && tombstones == old(tombstones) + 1
    {
      hide Count, HashOf, ContentsOf, Probing, PowerOfTwo;
      ghost var s := entries[..];
      var e := entries[i].(occupied := false, hash := TOMBSTONE_HASH);
      entries[i] := e;
      assert entries[..] == s[i := e];
      CountUpdate(s, i, e, Live);
      CountUpdate(s, i, e, Tombstone);
      len := len - 1;
      tombstones := tombstones + 1;
      ProbingDrop(s, i, e);
      DropEntry(s, i, e);
    }

    method Del(key: Value) returns (r: Reply)
      requires Valid()
      modifies this`len, this`tombstones, entries
      ensures Valid()
      ensures r == if Hashable(key) && Canon(key) in old(Contents()) then Ok(Nil) else Error
      ensures Contents() == if Hashable(key) then old(Contents()) - {Canon(key)} else old(Contents())
    {
      hide Count, HashOf, ContentsOf, Probing, PowerOfTwo;
      var i, _, ok := LookupEntry(key);
      if !ok || i < 0 || !entries[i].occupied {
        return Error;
      }
      Bury(i);
      r := Ok(Nil);
    }

    method Pop(key: Value, def: Value) returns (r: Reply)
      requires Valid()
      modifies this`len, this`tombstones, entries
      ensures Valid()
      ensures r == if !Hashable(key) then Error
                   else if Canon(key) in old(Contents()) then Ok(old(Contents())[Canon(key)].value) else Ok(def)
      ensures Contents() == if Hashable(key) then old(Contents()) - {Canon(key)} else old(Contents())
    {
      hide Count, HashOf, ContentsOf, Probing, PowerOfTwo;
      var i, _, ok := LookupEntry(key);
      if !ok {
        return Error;
      }
      if i < 0 || !entries[i].occupied {
        return Ok(def);
      }
      var val := entries[i].value;
      Bury(i);
      r := Ok(val);
    }

    method SetDefault(key: Value, val: Value) returns (r: Reply)
      requires Valid()
      modifies this, entries
      ensures Valid() && (entries == old(entries) || fresh(entries))
      ensures r == if !Hashable(key) then Error
                   else if Canon(key) in old(Contents()) then Ok(old(Contents())[Canon(key)].value) else Ok(val)
      ensures Contents() == if Hashable(key) && Canon(key) !in old(Contents())
                            then old(Contents())[Canon(key) := Cell(key, val)] else old(Contents())
    {
      hide Count, HashOf, ContentsOf, Probing, PowerOfTwo;
      var i, hash, ok := LookupEntry(key);
      if !ok {
        return Error;
      }
      if i >= 0 && entries[i].occupied {
        return Ok(entries[i].value);
      }
      SetHashed(key, val, hash);
      r := Ok(val);
    }

    method Clear()
      requires Valid()
      modifies this`len, this`tombstones, entries
      ensures Valid() && Contents() == map[]
    {
      hide Count, HashOf, ContentsOf, Probing, PowerOfTwo;
      forall i | 0 <= i < entries.Length {
        entries[i] := EMPTY;
      }
      len, tombstones := 0, 0;
      ProbingEmpty(entries[..]);
    }

    /** A copy of the slots, tombstones included; it fits because the capacity is rounded to itself. */
    method Copy() returns (r: Table)
      requires Valid()
      ensures fresh(r) && fresh(r.entries) && r.Valid()
      ensures r.Contents() == Contents()
    {
      hide Count, HashOf, ContentsOf, Probing;
      ghost var s := entries[..];
      r := new Table(cap);
      forall i | 0 <= i < cap {
        r.entries[i] := entries[i];
      }
      r.len, r.tombstones := len, tombstones;
      assert r.entries[..] == s == entries[..];
    }

    /**
      Copies every pair of another map into this one. The other map may be this one: then its array can
      be replaced under the loop, which goes on with the same index in the new array.
    */
    method Update(other: Table) returns (r: Reply)
      requires Valid() && other.Valid() && (this == other || entries != other.entries)
      modifies this, entries
      ensures Valid() && (entries == old(entries) || fresh(entries))
      ensures r == Ok(Nil) && Contents() == old(Contents()) + old(other.Contents())
    {
      hide Count, HashOf, ContentsOf, Probing, PowerOfTwo;
      ghost var from := other.entries[..];
      ContentsNothing(from);
      var i := 0;
      while i < other.cap
        invariant 0 <= i <= other.cap && Valid() && other.Valid()
        invariant entries == old(entries) || fresh(entries)
        invariant this != other ==> entries != other.entries && other.entries[..] == from
        invariant this != other ==> Contents() == old(Contents()) + ContentsOf(from[..i])
        invariant this == other ==> Contents() == old(Contents())
        decreases if this == other && Full() then 1 else 0, other.cap - i
      {
        var e := other.entries[i];
        if this != other {
          PrefixStep(from, i);
        }
        if e.occupied {
          ProbingGives(other.entries[..], i);
          Holding(other.entries[..], i);
          r := Set(e.key, e.value);
        }
        i := i + 1;
      }
      if this != other {
        assert from[..i] == from;
      } else {
        assert old(Contents()) + old(Contents()) == old(Contents());
      }
      r := Ok(Nil);
    }

    /** Equal sizes, and every pair of this map is in the other. */
    method Equal(other: Table) returns (eq: bool)
      requires Valid() && other.Valid()
      ensures eq <==> SamePairs(Contents(), other.Contents())
    {
      hide Count, HashOf, ContentsOf, Probing, PowerOfTwo;
      SizeIsLen();
      other.SizeIsLen();
      if len != other.len {
        return false;
      }
      ghost var s := entries[..];
      ContentsNothing(s);
      var i := 0;
      while i < cap
        invariant 0 <= i <= cap
        invariant Agreeing(ContentsOf(s[..i]), other.Contents())
      {
        var e := entries[i];
        PrefixStep(s, i);
        if e.occupied {
          ProbingGives(s, i);
          Holding(s, i);
          var hit := false;
          if other.len > 0 {
            other.Room();
            var j := FindSlot(other.entries, e.key, e.hash);
            Found(other.entries[..], e.key, j);
            EqualIsCanonical(other.entries[j].value, e.value);
            hit := other.entries[j].occupied && ValueEqual(other.entries[j].value, e.value);
          }
          if !hit {
            return false;
          }
        }
        i := i + 1;
      }
      assert s[..i] == s;
      SameKeys(Contents(), other.Contents());
      eq := true;
    }

    /** The stored pairs, in table order. */
    method Items() returns (pairs: seq<Cell>)
      requires Valid()
      ensures |pairs| == len == |Contents()|
      ensures forall k :: 0 <= k < |pairs| ==> Canon(pairs[k].key) in Contents() && Contents()[Canon(pairs[k].key)] == pairs[k]
      ensures forall j, k :: 0 <= j < k < |pairs| ==> Canon(pairs[j].key) != Canon(pairs[k].key)
    {
      hide Count, HashOf, ContentsOf, Probing, PowerOfTwo;
      SizeIsLen();
      ghost var s := entries[..];
      ContentsNothing(s);
      CountNone([], Live);
      pairs := [];
      assert s[..0] == [];
      var i := 0;
      while i < cap
        invariant 0 <= i <= cap && |pairs| == Count(s[..i], Live)
        invariant forall k :: 0 <= k < |pairs| ==>
                    Canon(pairs[k].key) in Contents() && Contents()[Canon(pairs[k].key)] == pairs[k]
                    && Canon(pairs[k].key) in ContentsOf(s[..i])
        invariant forall j, k :: 0 <= j < k < |pairs| ==> Canon(pairs[j].key) != Canon(pairs[k].key)
      {
        var e := entries[i];
        PrefixStep(s, i);
        if e.occupied {
          Holding(s, i);
          NotBefore(s, i);
          pairs := pairs + [Cell(e.key, e.value)];
        }
        i := i + 1;
      }
      assert s[..i] == s;
    }

    method Apply(op: Op) returns (r: Reply)
      requires Valid()
      modifies this, entries
      ensures Valid() && (entries == old(entries) || fresh(entries))
      ensures (Contents(), r) == Meaning(old(Contents()), op)
    {
      hide Count, HashOf, ContentsOf, Probing, PowerOfTwo;
      match op {
        case SetOp(k, v) => r := Set(k, v);
        case GetOp(k) => r := Get(k);
        case GetItemOp(k) => r := GetItem(k);
        case HasOp(k) => r := Has(k);
        case DelOp(k) => r := Del(k);
        case PopOp(k, def) => r := Pop(k, def);
        case SetDefaultOp(k, v) => r := SetDefault(k, v);
        case UpdateSelfOp =>
          r := Update(this);
          assert old(Contents()) + old(Contents()) == old(Contents());
        case ClearOp =>
          Clear();
          r := Ok(Nil);
      }
    }

    /** Any sequence of operations answers, and leaves the map, as the mathematical map does. */
    method ApplyAll(ops: seq<Op>) returns (replies: seq<Reply>)
      requires Valid()
      modifies this, entries
      ensures Valid() && (entries == old(entries) || fresh(entries))
      ensures (Contents(), replies) == MeaningOf(old(Contents()), ops)
    {
      hide Count, HashOf, ContentsOf, Probing, PowerOfTwo, Meaning;
      replies := [];
      for i := 0 to |ops|
        invariant Valid() && (entries == old(entries) || fresh(entries))
        invariant (Contents(), replies) == MeaningOf(old(Contents()), ops[..i])
      {
        var r := Apply(ops[i]);
        assert ops[..i + 1][..i] == ops[..i];
        replies := replies + [r];
      }
      assert ops[..|ops|] == ops;
    }
  }

  // ---------------------------------------------------------------------
  // The mathematical map
  // ---------------------------------------------------------------------

  datatype Op =
    | SetOp(k: Value, v: Value) | GetOp(k: Value) | GetItemOp(k: Value) | HasOp(k: Value) | DelOp(k: Value)
    | PopOp(k: Value, v: Value) | SetDefaultOp(k: Value, v: Value) | UpdateSelfOp | ClearOp

  function Meaning(d: Dict, op: Op): (Dict, Reply)
  {
    if op.UpdateSelfOp? then (d, Ok(Nil))
    else if op.ClearOp? then (map[], Ok(Nil))
    else if !Hashable(op.k) then (d, Error)
    else
      var k := Canon(op.k);
      match op
      case SetOp(key, v) => (d[k := Cell(key, v)], Ok(Nil))
      case GetOp(_) => (d, if k in d then Ok(d[k].value) else Ok(Nil))
      case GetItemOp(_) => (d, if k in d then Ok(d[k].value) else Error)
      case HasOp(_) => (d, Ok(Bool(k in d)))
      case DelOp(_) => (d - {k}, if k in d then Ok(Nil) else Error)
      case PopOp(_, def) => (d - {k}, if k in d then Ok(d[k].value) else Ok(def))
      case SetDefaultOp(key, v) => if k in d then (d, Ok(d[k].value)) else (d[k := Cell(key, v)], Ok(v))
      case _ => (d, Error)
  }

  function MeaningOf(d: Dict, ops: seq<Op>): (Dict, seq<Reply>)
  {
    if ops == [] then (d, []) else
    var (d1, rs) := MeaningOf(d, ops[..|ops| - 1]);
    var (d2, r) := Meaning(d1, ops[|ops| - 1]);
    (d2, rs + [r])
  }

  ghost predicate Agreeing(a: Dict, b: Dict)
  {
    forall k :: k in a ==> k in b && Canon(a[k].value) == Canon(b[k].value)
  }

  /** Map equality: the same keys, with equal values. */
  ghost predicate SamePairs(a: Dict, b: Dict)
  {
    a.Keys == b.Keys && forall k :: k in a ==> Canon(a[k].value) == Canon(b[k].value)
  }

  /** One inclusion is enough when the sizes agree. */
  lemma SameKeys(a: Dict, b: Dict)
    requires Agreeing(a, b) && |a| == |b|
    ensures SamePairs(a, b)
  {
    assert |a.Keys| == |a| && |b.Keys| == |b|;
    SubsetOfSameSize(a.Keys, b.Keys);
  }

  lemma SubsetOfSameSize<T>(a: set<T>, b: set<T>)
    requires a <= b && |a| == |b|
    ensures a == b
  {
    assert b == a + (b - a);
  }

  // ---------------------------------------------------------------------
  // Single slots
  // ---------------------------------------------------------------------

  /** What a probe's result says about the contents. */
  lemma {:induction false} Found(s: Slots, key: Value, r: nat)
    requires Probing(s) && Hashable(key) && SlotFor(s, key, r)
    ensures s[r].occupied <==> Canon(key) in ContentsOf(s)
    ensures s[r].occupied ==> ContentsOf(s)[Canon(key)] == Cell(s[r].key, s[r].value)
  {
    hide HashOf, Home;
    if s[r].occupied {
      StoredIn(s, r);
    } else {
      NotStored(s, Canon(key));
    }
  }

  /** Writing a live entry where its probe ended. */
  lemma PutEntry(s: Slots, r: nat, e: Entry)
    requires Probing(s) && e.occupied && Hashable(e.key) && e.hash == HashOf(e.key) && SlotFor(s, e.key, r)
    ensures Probing(s[r := e]) && ContentsOf(s[r := e]) == ContentsOf(s)[Canon(e.key) := Cell(e.key, e.value)]
    ensures Count(s[r := e], Live) == Count(s, Live) + if s[r].occupied then 0 else 1
    ensures Count(s[r := e], Tombstone) == Count(s, Tombstone) - if KindOf(s[r]) == Tombstone then 1 else 0
  {
    hide HashOf, Home, ContentsOf, Count;
    ProbingPut(s, r, e);
    forall j | 0 <= j < |s| && Matches(s[j], e.key)
      ensures j == r
    {
      assert s[r].occupied ==> Matches(s[j], s[r].key);
    }
    ContentsPut(s, r, e);
    CountUpdate(s, r, e, Live);
    CountUpdate(s, r, e, Tombstone);
  }

  lemma DropEntry(s: Slots, r: nat, e: Entry)
    requires Probing(s) && r < |s| && s[r].occupied && !e.occupied
    ensures ContentsOf(s[r := e]) == ContentsOf(s) - {Canon(s[r].key)}
  {
    hide HashOf, Home, ContentsOf;
    ContentsDrop(s, r, e);
  }

  lemma ProbingGives(s: Slots, i: nat)
    requires Probing(s) && i < |s| && s[i].occupied
    ensures Hashable(s[i].key) && s[i].hash == HashOf(s[i].key)
  {
    assert GoodEntry(s, i);
  }

  lemma PrefixStep(s: Slots, i: nat)
    requires i < |s|
    ensures ContentsOf(s[..i + 1])
         == if s[i].occupied then ContentsOf(s[..i])[Canon(s[i].key) := Cell(s[i].key, s[i].value)] else ContentsOf(s[..i])
    ensures Count(s[..i + 1], Live) == Count(s[..i], Live) + if s[i].occupied then 1 else 0
  {
    assert s[..i + 1][..i] == s[..i];
  }

  /** While rehashing: the next entry's key is not among those already moved. */
  lemma {:induction false} FreshKey(s: Slots, i: nat, t: Slots, slot: nat)
    requires Probing(s) && i < |s| && s[i].occupied && Hashable(s[i].key)
    requires Probing(t) && ContentsOf(t) == ContentsOf(s[..i]) && SlotFor(t, s[i].key, slot)
    ensures !t[slot].occupied
  {
    hide HashOf, Home, ContentsOf;
    NotBefore(s, i);
    if t[slot].occupied {
      StoredIn(t, slot);
    }
  }

  lemma ContentsNothing(s: Slots)
    ensures ContentsOf(s[..0]) == map[]
  {
  }

  lemma {:induction false} Holding(s: Slots, i: nat)
    requires Probing(s) && i < |s| && s[i].occupied
    ensures Canon(s[i].key) in ContentsOf(s) && ContentsOf(s)[Canon(s[i].key)] == Cell(s[i].key, s[i].value)
  {
    hide ContentsOf;
    StoredIn(s, i);
  }

  lemma NotBefore(s: Slots, i: nat)
    requires Probing(s) && i < |s| && s[i].occupied
    ensures Canon(s[i].key) !in ContentsOf(s[..i])
  {
    hide ContentsOf;
    forall j | 0 <= j < i && s[..i][j].occupied
      ensures Canon(s[..i][j].key) != Canon(s[i].key)
    {
      assert Matches(s[j], s[i].key) ==> j == i;
    }
    NotStored(s[..i], Canon(s[i].key));
  }
}
