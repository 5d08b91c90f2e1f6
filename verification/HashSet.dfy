/**
  Sets and frozensets over the same table: algebra, comparison, in-place forms and the frozenset hash.
  A set's members are classes of equal values; the value stored with each is nil.
*/
module HashSet {
  import opened Values
  import opened Arithmetic
  import opened Hashing
  import opened HashMap

  /** The classes that have a member, each with the member that stands for it. */
  type Elements = map<Value, Value>

  ghost function Keyed(c: Dict): (e: Elements)
    ensures e.Keys == c.Keys
  {
    map k | k in c :: c[k].key
  }

  ghost function Items(t: Table): Elements
    reads t, t.entries
  {
    Keyed(t.Contents())
  }

  ghost function Members(t: Table): set<Value>
    reads t, t.entries
  {
    Items(t).Keys
  }

  ghost function ItemsOf(s: Slots): Elements
  {
    Keyed(ContentsOf(s))
  }

  ghost function KeysOf(s: Slots): set<Value>
  {
    ItemsOf(s).Keys
  }

  lemma ItemsShown(t: Table)
    ensures Items(t) == ItemsOf(t.entries[..])
  {
  }

  lemma KeyedPut(c: Dict, k: Value, e: Cell)
    ensures Keyed(c[k := e]) == Keyed(c)[k := e.key]
  {
  }

  lemma KeyedDrop(c: Dict, ks: set<Value>)
    ensures Keyed(c - ks) == Keyed(c) - ks
  {
  }

  lemma MemberStep(s: Slots, i: nat)
    requires i < |s|
    ensures ItemsOf(s[..i + 1]) == if s[i].occupied then ItemsOf(s[..i])[Canon(s[i].key) := s[i].key] else ItemsOf(s[..i])
    ensures KeysOf(s[..i + 1]) == if s[i].occupied then KeysOf(s[..i]) + {Canon(s[i].key)} else KeysOf(s[..i])
  {
    hide ContentsOf, Canon;
    PrefixStep(s, i);
    if s[i].occupied {
      KeyedPut(ContentsOf(s[..i]), Canon(s[i].key), Cell(s[i].key, s[i].value));
    }
  }

  lemma MembersWhole(s: Slots)
    ensures ItemsOf(s[..0]) == map[] && ItemsOf(s[..|s|]) == ItemsOf(s)
    ensures KeysOf(s[..0]) == {} && KeysOf(s[..|s|]) == KeysOf(s)
  {
    assert s[..|s|] == s;
  }

  /** What an entry of a well-formed table says about membership and about the entries before it. */
  lemma MemberHere(s: Slots, i: nat)
    requires Probing(s) && i < |s| && s[i].occupied
    ensures Hashable(s[i].key) && s[i].hash == HashOf(s[i].key)
    ensures Canon(s[i].key) in KeysOf(s) && Canon(s[i].key) !in KeysOf(s[..i])
  {
    hide ContentsOf, HashOf;
    ProbingGives(s, i);
    Holding(s, i);
    NotBefore(s, i);
  }

  /** The entry of a class holds the member that stands for it. */
  lemma ItemHere(s: Slots, i: nat)
    requires Probing(s) && i < |s| && s[i].occupied
    ensures Canon(s[i].key) in ItemsOf(s) && ItemsOf(s)[Canon(s[i].key)] == s[i].key
  {
    hide ContentsOf, HashOf;
    ProbingGives(s, i);
    Holding(s, i);
  }

  // ---------------------------------------------------------------------
  // Single elements
  // ---------------------------------------------------------------------

  method AddHashed(s: Table, item: Value, hash: uint32)
    requires s.Valid() && Hashable(item) && hash == HashOf(item)
    modifies s, s.entries
    ensures s.Valid() && (s.entries == old(s.entries) || fresh(s.entries))
    ensures Items(s) == old(Items(s))[Canon(item) := item]
    ensures !old(s.Full()) ==> s.entries == old(s.entries) && s.cap == old(s.cap)
    ensures s.cap >= old(s.cap) && (old(s.Full()) ==> !s.Full())
    ensures Canon(item) in old(Members(s)) && !old(s.Full()) ==> !s.Full()
  {
    hide Count, HashOf, ContentsOf, Probing, PowerOfTwo, Keyed;
    KeyedPut(s.Contents(), Canon(item), Cell(item, Nil));
    s.SetHashed(item, Nil, hash);
  }

  /** Turns a live slot into a tombstone. */
  method DropAt(s: Table, i: nat)
    requires s.Valid() && i < s.cap && s.entries[i].occupied
    modifies s`len, s`tombstones, s.entries
    ensures s.Valid()
    ensures Items(s) == old(Items(s)) - {Canon(old(s.entries[i].key))}
    ensures s.entries[..] == old(s.entries[..])[i := old(s.entries[i]).(occupied := false, hash := TOMBSTONE_HASH)]
  {
    hide Count, HashOf, ContentsOf, Probing, PowerOfTwo, Keyed;
    KeyedDrop(s.Contents(), {Canon(s.entries[i].key)});
    s.Bury(i);
  }

  method Add(s: Table, item: Value) returns (r: Reply)
    requires s.Valid()
    modifies s, s.entries
    ensures s.Valid() && (s.entries == old(s.entries) || fresh(s.entries))
    ensures r == if Hashable(item) then Ok(Nil) else Error
    ensures Items(s) == if Hashable(item) then old(Items(s))[Canon(item) := item] else old(Items(s))
  {
    hide Count, HashOf, ContentsOf, Probing, PowerOfTwo, Keyed;
    if !Hashable(item) {
      return Error;
    }
    AddHashed(s, item, HashOf(item));
    r := Ok(Nil);
  }

  method Remove(s: Table, item: Value) returns (r: Reply)
    requires s.Valid()
    modifies s`len, s`tombstones, s.entries
    ensures s.Valid()
    ensures r == if Hashable(item) && Canon(item) in old(Members(s)) then Ok(Nil) else Error
    ensures Items(s) == if Hashable(item) then old(Items(s)) - {Canon(item)} else old(Items(s))
  {
    hide Count, HashOf, ContentsOf, Probing, PowerOfTwo, Keyed;
    KeyedDrop(s.Contents(), {Canon(item)});
    r := s.Del(item);
  }

  /** Removes the item if it is there; no other slot changes. */
  method Discard(s: Table, item: Value) returns (r: Reply)
    requires s.Valid()
    modifies s`len, s`tombstones, s.entries
    ensures s.Valid()
    ensures r == if Hashable(item) then Ok(Nil) else Error
    ensures Items(s) == if Hashable(item) then old(Items(s)) - {Canon(item)} else old(Items(s))
    ensures forall j :: 0 <= j < s.cap && !Matches(old(s.entries[j]), item) ==> s.entries[j] == old(s.entries[j])
  {
    hide Count, HashOf, ContentsOf, Probing, PowerOfTwo, Keyed;
    var i, _, ok := s.LookupEntry(item);
    if !ok {
      return Error;
    }
    if i >= 0 && s.entries[i].occupied {
      DropAt(s, i);
    }
    if Canon(item) !in old(Items(s)) {
      assert old(Items(s)) - {Canon(item)} == old(Items(s));
    }
    r := Ok(Nil);
  }

  /** Takes the first element in table order. */
  method Pop(s: Table) returns (r: Reply)
    requires s.Valid()
    modifies s`len, s`tombstones, s.entries
    ensures s.Valid()
    ensures old(Members(s)) == {} <==> r == Error
    ensures r.Ok? ==> (Canon(r.v), r.v) in old(Items(s)).Items && Items(s) == old(Items(s)) - {Canon(r.v)}
    ensures r == Error ==> Items(s) == old(Items(s))
  {
    hide Count, HashOf, ContentsOf, Probing, PowerOfTwo, Keyed;
    ghost var t := s.entries[..];
    MembersWhole(t);
    var i := 0;
    while i < s.cap
      invariant 0 <= i <= s.cap && s.Valid() && s.entries[..] == t
      invariant s.len == old(s.len) && s.tombstones == old(s.tombstones)
      invariant ItemsOf(t[..i]) == map[]
    {
      MemberStep(t, i);
      if s.entries[i].occupied {
        MemberHere(t, i);
        var item := s.entries[i].key;
        ItemHere(t, i);
        DropAt(s, i);
        return Ok(item);
      }
      i := i + 1;
    }
    r := Error;
  }

  /** Probing with a hash that is already known; -1 when the set is empty. */
  method FindInSet(s: Table, item: Value, hash: uint32) returns (present: bool)
    requires s.Valid() && Hashable(item) && hash == HashOf(item)
    ensures present <==> Canon(item) in Members(s)
  {
    hide Count, HashOf, ContentsOf, Probing, PowerOfTwo, Keyed;
    if s.len == 0 {
      s.SizeIsLen();
      return false;
    }
    s.Room();
    var i := FindSlot(s.entries, item, hash);
    Found(s.entries[..], item, i);
    present := s.entries[i].occupied;
  }

  // ---------------------------------------------------------------------
  // New sets
  // ---------------------------------------------------------------------

  lemma EmptyItems(r: Table)
    requires r.Contents() == map[]
    ensures Items(r) == map[]
  {
  }

  method InsertAll(r: Table, src: Table)
    requires r.Valid() && src.Valid() && r != src && r.entries != src.entries
    modifies r, r.entries
    ensures r.Valid() && (r.entries == old(r.entries) || fresh(r.entries))
    ensures Items(r) == old(Items(r)) + Items(src)
  {
    hide Count, HashOf, ContentsOf, Probing, PowerOfTwo, Keyed, Items, ItemsOf;
    ghost var s := src.entries[..];
    MembersWhole(s);
    ItemsShown(src);
    var i := 0;
    while i < src.cap
      invariant 0 <= i <= src.cap && r.Valid() && r.entries != src.entries
      invariant r.entries == old(r.entries) || fresh(r.entries)
      invariant src.entries[..] == s
      invariant Items(r) == old(Items(r)) + ItemsOf(s[..i])
    {
      var e := src.entries[i];
      MemberStep(s, i);
      if e.occupied {
        MemberHere(s, i);
        AddHashed(r, e.key, e.hash);
      }
      i := i + 1;
    }
  }

  ghost function Filtered(from: set<Value>, other: set<Value>, wantPresent: bool): set<Value>
  {
    if wantPresent then from * other else from - other
  }

  /** The elements whose membership in `other` is as wanted. */
  ghost function Chosen(from: Elements, other: set<Value>, wantPresent: bool): Elements
  {
    map k | k in from && (k in other) == wantPresent :: from[k]
  }

  lemma ChosenStep(from: Elements, other: set<Value>, wantPresent: bool, k: Value, item: Value)
    ensures Chosen(from[k := item], other, wantPresent)
         == if (k in other) == wantPresent then Chosen(from, other, wantPresent)[k := item] else Chosen(from, other, wantPresent) - {k}
    ensures k !in from ==> Chosen(from, other, wantPresent) - {k} == Chosen(from, other, wantPresent)
  {
  }

  lemma ChosenIs(from: Elements, other: set<Value>)
    ensures Chosen(from, other, true) == from - (from.Keys - other) && Chosen(from, other, false) == from - other
  {
  }

  lemma ChosenNothing(other: set<Value>, wantPresent: bool)
    ensures Chosen(map[], other, wantPresent) == map[]
  {
  }

  /** Inserts those elements of src whose membership in other is as wanted; src and other may be the same set. */
  method FilterInto(r: Table, src: Table, other: Table, wantPresent: bool)
    requires r.Valid() && src.Valid() && r != src && r.entries != src.entries
    requires other.Valid() && r != other && r.entries != other.entries
    modifies r, r.entries
    ensures r.Valid() && (r.entries == old(r.entries) || fresh(r.entries))
    ensures Items(r) == old(Items(r)) + Chosen(Items(src), Members(other), wantPresent)
  {
    hide Count, HashOf, ContentsOf, Probing, PowerOfTwo, Keyed, Chosen, Items, ItemsOf;
    ghost var s := src.entries[..];
    MembersWhole(s);
    ItemsShown(src);
    ChosenNothing(Members(other), wantPresent);
    var i := 0;
    while i < src.cap
      invariant 0 <= i <= src.cap && r.Valid() && r.entries != src.entries && r.entries != other.entries
      invariant r.entries == old(r.entries) || fresh(r.entries)
      invariant src.entries[..] == s && other.Valid()
      invariant Items(r) == old(Items(r)) + Chosen(ItemsOf(s[..i]), Members(other), wantPresent)
    {
      var e := src.entries[i];
      MemberStep(s, i);
      if e.occupied {
        MemberHere(s, i);
        ChosenStep(ItemsOf(s[..i]), Members(other), wantPresent, Canon(e.key), e.key);
        var present := FindInSet(other, e.key, e.hash);
        if present == wantPresent {
          AddHashed(r, e.key, e.hash);
        }
      }
      i := i + 1;
    }
  }

  method Union(a: Table, b: Table) returns (r: Table)
    requires a.Valid() && b.Valid()
    ensures fresh(r) && fresh(r.entries) && r.Valid()
    ensures Items(r) == Items(a) + Items(b) && Members(r) == Members(a) + Members(b)
  {
    hide Count, HashOf, ContentsOf, Probing, PowerOfTwo, Keyed;
    r := new Table(a.len + b.len);
    EmptyItems(r);
    InsertAll(r, a);
    InsertAll(r, b);
  }

  method Diff(a: Table, b: Table) returns (r: Table)
    requires a.Valid() && b.Valid()
    ensures fresh(r) && fresh(r.entries) && r.Valid()
    ensures Items(r) == Items(a) - Members(b) && Members(r) == Members(a) - Members(b)
  {
    hide Count, HashOf, ContentsOf, Probing, PowerOfTwo, Keyed, Chosen;
    r := new Table(a.len);
    EmptyItems(r);
    ChosenIs(Items(a), Members(b));
    FilterInto(r, a, b, false);
  }

  method Intersect(a: Table, b: Table) returns (r: Table)
    requires a.Valid() && b.Valid()
    ensures fresh(r) && fresh(r.entries) && r.Valid()
    ensures Items(r) == Items(a) - (Members(a) - Members(b)) && Members(r) == Members(a) * Members(b)
  {
    hide Count, HashOf, ContentsOf, Probing, PowerOfTwo, Keyed, Chosen;
    r := new Table(if a.len < b.len then a.len else b.len);
    EmptyItems(r);
    ChosenIs(Items(a), Members(b));
    FilterInto(r, a, b, true);
  }

  method SymDiff(a: Table, b: Table) returns (r: Table)
    requires a.Valid() && b.Valid()
    ensures fresh(r) && fresh(r.entries) && r.Valid()
    ensures Items(r) == (Items(a) - Members(b)) + (Items(b) - Members(a))
    ensures Members(r) == (Members(a) - Members(b)) + (Members(b) - Members(a))
  {
    hide Count, HashOf, ContentsOf, Probing, PowerOfTwo, Keyed, Chosen;
    r := new Table(a.len + b.len);
    EmptyItems(r);
    ChosenIs(Items(a), Members(b));
    ChosenIs(Items(b), Members(a));
    FilterInto(r, a, b, false);
    FilterInto(r, b, a, false);
  }

  // ---------------------------------------------------------------------
  // Comparison
  // ---------------------------------------------------------------------

  lemma SubsetSize<T>(a: set<T>, b: set<T>)
    ensures a <= b ==> |a| <= |b|
  {
    if a <= b {
      assert b == a + (b - a);
    }
  }

  lemma KeyedSize(c: Dict)
    ensures |Keyed(c).Keys| == |c|
  {
    assert Keyed(c).Keys == c.Keys;
  }

  lemma MembersCount(t: Table)
    requires t.Valid()
    ensures |Members(t)| == t.len
  {
    hide Count, HashOf, ContentsOf, Probing, PowerOfTwo, Keyed;
    t.SizeIsLen();
    KeyedSize(t.Contents());
  }

  method IsSubset(a: Table, b: Table) returns (sub: bool)
    requires a.Valid() && b.Valid()
    ensures sub <==> Members(a) <= Members(b)
  {
    hide Count, HashOf, ContentsOf, Probing, PowerOfTwo, Keyed;
    MembersCount(a);
    MembersCount(b);
    SubsetSize(Members(a), Members(b));
    if a.len > b.len {
      return false;
    }
    ghost var s := a.entries[..];
    MembersWhole(s);
    var i := 0;
    while i < a.cap
      invariant 0 <= i <= a.cap
      invariant KeysOf(s[..i]) <= Members(b)
    {
      var e := a.entries[i];
      MemberStep(s, i);
      if e.occupied {
        MemberHere(s, i);
        var present := FindInSet(b, e.key, e.hash);
        if !present {
          return false;
        }
      }
      i := i + 1;
    }
    sub := true;
  }

  method IsProperSubset(a: Table, b: Table) returns (sub: bool)
    requires a.Valid() && b.Valid()
    ensures sub <==> Members(a) < Members(b)
  {
    hide Count, HashOf, ContentsOf, Probing, PowerOfTwo, Keyed;
    MembersCount(a);
    MembersCount(b);
    SubsetSize(Members(a), Members(b));
    SubsetSize(Members(b), Members(a));
    if a.len >= b.len {
      if Members(a) <= Members(b) {
        SubsetOfSameSize(Members(a), Members(b));
      }
      return false;
    }
    sub := IsSubset(a, b);
  }

  /** Equal sizes and one inclusion. */
  method SetEqual(a: Table, b: Table) returns (eq: bool)
    requires a.Valid() && b.Valid()
    ensures eq <==> Members(a) == Members(b)
  {
    hide Count, HashOf, ContentsOf, Probing, PowerOfTwo, Keyed;
    MembersCount(a);
    MembersCount(b);
    if a.len != b.len {
      return false;
    }
    eq := IsSubset(a, b);
    if eq {
      SubsetOfSameSize(Members(a), Members(b));
    }
  }

  method IsDisjoint(a: Table, b: Table) returns (disjoint: bool)
    requires a.Valid() && b.Valid()
    ensures disjoint <==> Members(a) !! Members(b)
  {
    hide Count, HashOf, ContentsOf, Probing, PowerOfTwo, Keyed;
    ghost var s := a.entries[..];
    MembersWhole(s);
    var i := 0;
    while i < a.cap
      invariant 0 <= i <= a.cap
      invariant KeysOf(s[..i]) !! Members(b)
    {
      var e := a.entries[i];
      MemberStep(s, i);
      if e.occupied {
        MemberHere(s, i);
        var present := FindInSet(b, e.key, e.hash);
        if present {
          return false;
        }
      }
      i := i + 1;
    }
    disjoint := true;
  }

  // ---------------------------------------------------------------------
  // In-place forms; the two operands may be the same set
  // ---------------------------------------------------------------------

  method UpdateWith(s: Table, other: Table)
    requires s.Valid() && other.Valid() && (s == other || s.entries != other.entries)
    modifies s, s.entries
    ensures s.Valid() && (s.entries == old(s.entries) || fresh(s.entries))
    ensures Items(s) == old(Items(s)) + old(Items(other))
  {
    hide Count, HashOf, ContentsOf, Probing, PowerOfTwo, Keyed, Items, ItemsOf;
    ghost var from := other.entries[..];
    MembersWhole(from);
    ItemsShown(other);
    var i := 0;
    while i < other.cap
      invariant 0 <= i <= other.cap && s.Valid() && other.Valid()
      invariant s.entries == old(s.entries) || fresh(s.entries)
      invariant s != other ==> s.entries != other.entries && other.entries[..] == from
      invariant s != other ==> Items(s) == old(Items(s)) + ItemsOf(from[..i])
      invariant s == other ==> Items(s) == old(Items(s))
      decreases if s == other && s.Full() then 1 else 0, other.cap - i
    {
      var e := other.entries[i];
      if s != other {
        MemberStep(from, i);
      }
      if e.occupied {
        MemberHere(other.entries[..], i);
        ItemsShown(other);
        ItemHere(other.entries[..], i);
        AddHashed(s, e.key, e.hash);
      }
      i := i + 1;
    }
  }

  method IntersectionUpdate(s: Table, other: Table)
    requires s.Valid() && other.Valid() && (s == other || s.entries != other.entries)
    modifies s`len, s`tombstones, s.entries
    ensures s.Valid()
    ensures Items(s) == old(Items(s)) - (old(Members(s)) - old(Members(other)))
  {
    hide Count, HashOf, ContentsOf, Probing, PowerOfTwo, Keyed;
    Sweep(s, other, false);
  }

  method DifferenceUpdate(s: Table, other: Table)
    requires s.Valid() && other.Valid() && (s == other || s.entries != other.entries)
    modifies s`len, s`tombstones, s.entries
    ensures s.Valid()
    ensures Items(s) == old(Items(s)) - old(Members(other))
  {
    hide Count, HashOf, ContentsOf, Probing, PowerOfTwo, Keyed;
    Sweep(s, other, true);
  }

  lemma FilteredStep(from: set<Value>, other: set<Value>, present: bool, k: Value)
    ensures Filtered(from + {k}, other, present)
         == if (k in other) == present then Filtered(from, other, present) + {k} else Filtered(from, other, present)
    ensures k !in from ==> k !in Filtered(from, other, present)
    ensures Filtered({}, other, present) == {}
  {
  }

  /** The loop of both: a slot becomes a tombstone when its key's membership in `other` is as given. */
  method Sweep(s: Table, other: Table, present: bool)
    requires s.Valid() && other.Valid() && (s == other || s.entries != other.entries)
    modifies s`len, s`tombstones, s.entries
    ensures s.Valid()
    ensures Items(s) == old(Items(s)) - Filtered(old(Members(s)), old(Members(other)), present)
  {
    hide Count, HashOf, ContentsOf, Probing, PowerOfTwo, Keyed, Items, ItemsOf, Filtered;
    ghost var t := s.entries[..];
    ghost var b := Members(other);
    MembersWhole(t);
    ItemsShown(s);
    FilteredStep({}, b, present, Nil);
    var i := 0;
    while i < s.cap
      invariant 0 <= i <= s.cap && s.Valid() && other.Valid() && |t| == s.cap
      invariant forall j :: i <= j < s.cap ==> s.entries[j] == t[j]
      invariant s != other ==> Members(other) == b
      invariant Items(s) == old(Items(s)) - Filtered(KeysOf(t[..i]), b, present)
    {
      var e := s.entries[i];
      MemberStep(t, i);
      if e.occupied {
        MemberHere(t, i);
        FilteredStep(KeysOf(t[..i]), b, present, Canon(e.key));
        ItemsShown(s);
        MemberHere(s.entries[..], i);
        var found := FindInSet(other, e.key, e.hash);
        if found == present {
          DropAt(s, i);
        }
      }
      i := i + 1;
    }
  }

  /** What is in one of the two only. */
  ghost function Either(a: Elements, m: Elements): Elements
  {
    (a - m.Keys) + (m - a.Keys)
  }

  lemma EitherStep(a: Elements, m: Elements, k: Value, item: Value)
    requires k !in m
    ensures Either(a, m[k := item]) == if k in a then Either(a, m) - {k} else Either(a, m)[k := item]
    ensures Either(a, m).Keys == (a.Keys - m.Keys) + (m.Keys - a.Keys)
    ensures a - m[k := item].Keys == (a - m.Keys) - {k}
  {
  }

  lemma EitherIs(a: Elements, m: Elements)
    ensures Either(a, m) == (a - m.Keys) + (m - a.Keys)
  {
  }

  lemma EitherNothing(a: Elements)
    ensures Either(a, map[]) == a && a - {} == a && Either(a, a) == a - a.Keys
  {
  }

  method SymmetricDifferenceUpdate(s: Table, other: Table) returns (r: Reply)
    requires s.Valid() && other.Valid() && (s == other || s.entries != other.entries)
    modifies s, s.entries
    ensures s.Valid() && (s.entries == old(s.entries) || fresh(s.entries))
    ensures r == Ok(Nil)
    ensures Items(s) == (old(Items(s)) - old(Members(other))) + (old(Items(other)) - old(Members(s)))
  {
    hide Count, HashOf, ContentsOf, Probing, PowerOfTwo, Keyed, Items, ItemsOf, Either, Matches;
    ghost var from, a := other.entries[..], Items(s);
    MembersWhole(from);
    ItemsShown(other);
    EitherNothing(a);
    EitherIs(a, Items(other));
    var i := 0;
    while i < other.cap
      invariant 0 <= i <= other.cap == |from| && s.Valid() && other.Valid()
      invariant s.entries == old(s.entries) || fresh(s.entries)
      invariant s == other || s.entries != other.entries
      invariant forall j :: i <= j < other.cap ==> other.entries[j] == from[j]
      invariant s != other ==> other.entries[..] == from && Items(s) == Either(a, ItemsOf(from[..i]))
      invariant s == other ==> Items(s) == a - ItemsOf(from[..i]).Keys
    {
      var e := other.entries[i];
      MemberStep(from, i);
      if e.occupied {
        MemberHere(from, i);
        EitherStep(a, ItemsOf(from[..i]), Canon(e.key), e.key);
        ItemsShown(s);
        MemberHere(other.entries[..], i);
        NoOther(from, i);
        r := Toggle(s, e.key);
        if r == Error {
          return;
        }
      }
      i := i + 1;
    }
    r := Ok(Nil);
  }

  /** Takes an element out if it is in, and puts it in if it is not. */
  method Toggle(s: Table, item: Value) returns (r: Reply)
    requires s.Valid()
    modifies s, s.entries
    ensures s.Valid() && (s.entries == old(s.entries) || fresh(s.entries))
    ensures r == if Hashable(item) then Ok(Nil) else Error
    ensures Hashable(item) && Canon(item) in old(Members(s)) ==>
              Items(s) == old(Items(s)) - {Canon(item)} && s.entries == old(s.entries) && s.cap == old(s.cap)
              && forall j :: 0 <= j < s.cap && !Matches(old(s.entries[j]), item) ==> s.entries[j] == old(s.entries[j])
    ensures Hashable(item) && Canon(item) !in old(Members(s)) ==> Items(s) == old(Items(s))[Canon(item) := item]
  {
    hide Count, HashOf, ContentsOf, Probing, PowerOfTwo, Keyed;
    var has := s.Has(item);
    if has == Error {
      return Error;
    }
    if has == Ok(Bool(true)) {
      r := Discard(s, item);
    } else {
      r := Add(s, item);
    }
  }

  lemma NoOther(s: Slots, i: nat)
    requires Probing(s) && i < |s| && s[i].occupied
    ensures forall j :: i < j < |s| ==> !Matches(s[j], s[i].key)
  {
  }

  // ---------------------------------------------------------------------
  // The frozenset hash
  // ---------------------------------------------------------------------

  function Mix(hash: uint32): bv32
  {
    (hash as bv32) * 0x9e37_79b9
  }

  function Xor(a: bv32, b: bv32): bv32
  {
    a ^ b
  }

  ghost function MixOf(k: Value): bv32
  {
    if Hashable(k) then Mix(HashOf(k)) else 0
  }

  /** The exclusive or over a set, in any order. */
  ghost function XorAll(ks: set<Value>): bv32
  {
    if ks == {} then 0 else
    var k :| k in ks;
    Xor(MixOf(k), XorAll(ks - {k}))
  }

  lemma {:induction false} XorAllTake(ks: set<Value>, x: Value)
    requires x in ks
    ensures XorAll(ks) == Xor(MixOf(x), XorAll(ks - {x}))
    decreases |ks|
  {
    hide MixOf, Xor;
    var k :| k in ks && XorAll(ks) == Xor(MixOf(k), XorAll(ks - {k}));
    if k != x {
      XorAllTake(ks - {k}, x);
      XorAllTake(ks - {x}, k);
      assert ks - {k} - {x} == ks - {x} - {k};
      XorSwap(MixOf(k), MixOf(x), XorAll(ks - {x} - {k}));
    }
  }

  lemma XorSwap(a: bv32, b: bv32, c: bv32)
    ensures Xor(a, Xor(b, c)) == Xor(b, Xor(a, c))
  {
  }

  lemma XorTurn(a: bv32, b: bv32)
    ensures a ^ b == Xor(b, a)
  {
  }

  /** What frozensets with these members hash to, whatever their tables look like. */
  ghost function FrozenHashOf(ks: set<Value>): uint32
  {
    if XorAll(ks) == 0 then 1 else XorAll(ks) as int
  }

  /** The fold over the slots computes a function of the members only, so equal frozensets hash alike. */
  method FrozenHash(s: Table) returns (r: Value)
    requires s.Valid()
    ensures r == Int(FrozenHashOf(Members(s)))
  {
    hide Count, HashOf, ContentsOf, Probing, PowerOfTwo, Mix, XorAll;
    ghost var t := s.entries[..];
    MembersWhole(t);
    var h: bv32 := 0;
    assert XorAll({}) == 0 by { XorNothing(); }
    var i := 0;
    while i < s.cap
      invariant 0 <= i <= s.cap
      invariant h == XorAll(KeysOf(t[..i]))
    {
      var e := s.entries[i];
      MemberStep(t, i);
      if e.occupied {
        MemberHere(t, i);
        EntryHash(t, i);
        var k := KeysOf(t[..i + 1]);
        XorAllTake(k, Canon(e.key));
        assert k - {Canon(e.key)} == KeysOf(t[..i]);
        XorTurn(h, Mix(e.hash));
        h := h ^ Mix(e.hash);
      }
      i := i + 1;
    }
    if h == 0 {
      h := 1;
    }
    r := Int(h as int);
  }

  lemma XorNothing()
    ensures XorAll({}) == 0
  {
  }

  /** Known values: no member, a member that hashes to 0, one member, two members. */
  lemma FrozenVectors()
    ensures FrozenHashOf({}) == 1 && FrozenHashOf({Nil}) == 1
    ensures FrozenHashOf({Int(1)}) == 0x9e37_79b9 && FrozenHashOf({Int(1), Int(2)}) == 0xa259_8acb
  {
    hide XorAll, Mix;
    MixVectors();
    XorNothing();
    XorAllTake({Nil}, Nil);
    XorAllTake({Int(1)}, Int(1));
    XorAllTake({Int(1), Int(2)}, Int(2));
    assert {Nil} - {Nil} == {} && {Int(1)} - {Int(1)} == {} && {Int(1), Int(2)} - {Int(2)} == {Int(1)};
  }

  lemma MixVectors()
    ensures Mix(0) == 0 && Mix(1) == 0x9e37_79b9 && Mix(2) == 0x3c6e_f372
  {
  }

  lemma EntryHash(s: Slots, i: nat)
    requires Probing(s) && i < |s| && s[i].occupied
    ensures MixOf(Canon(s[i].key)) == Mix(s[i].hash)
  {
    hide HashOf;
    ProbingGives(s, i);
    EqualKeysHashAlike(s[i].key, Canon(s[i].key));
  }
}
