/** `canonicalJson`: stringify with object members in key order. The order is the one in which a
    JavaScript object that was filled in sorted order lists its keys: array indices first, by value,
    then all other keys by UTF-16 code units. The key "__proto__" is never listed, because assigning
    it sets the prototype of the object under construction instead of a member. */
module CanonicalText {
  import opened Optional
  import opened JsonText

  const PROTO := "__proto__"

  // ---------------------------------------------------------------- key order

  /** Orders characters as their UTF-16 encodings are ordered. */
  function UnitRank(c: char): nat {
    var n := c as int;
    if n >= 0x1_0000 then n - 0x1_0000 + 0xD800
    else if n >= 0xE000 then n + 0x20_0000
    else n
  }

  predicate LexLess(a: string, b: string) {
    b != "" && (a == "" || UnitRank(a[0]) < UnitRank(b[0]) || (a[0] == b[0] && LexLess(a[1..], b[1..])))
  }

  predicate IsIndexKey(k: string) {
    && k != ""
    && (forall i :: 0 <= i < |k| ==> '0' <= k[i] <= '9')
    && (k == "0" || k[0] != '0')
    && (|k| < 10 || (|k| == 10 && LexLess(k, "4294967295")))
  }

  predicate KeyLess(a: string, b: string) {
    if IsIndexKey(a) != IsIndexKey(b) then IsIndexKey(a)
    else if IsIndexKey(a) && |a| != |b| then |a| < |b|
    else LexLess(a, b)
  }

  /** The UTF-16 encoding of a character: one code unit, or a surrogate pair. */
  function Units(c: char): seq<int> {
    var n := c as int;
    if n < 0x1_0000 then [n] else [0xD800 + (n - 0x1_0000) / 0x400, 0xDC00 + (n - 0x1_0000) % 0x400]
  }

  /** The rank orders characters as their code units are ordered, one after the other. */
  lemma RankIsUnitOrder(c: char, d: char)
    ensures UnitRank(c) < UnitRank(d) <==>
            Units(c)[0] < Units(d)[0] || (Units(c)[0] == Units(d)[0] && |Units(c)| == |Units(d)| == 2 && Units(c)[1] < Units(d)[1])
  {
  }

  /** The order of texts: a proper prefix comes first, and else the first difference decides. */
  lemma {:induction false} FirstDifferenceDecides(a: string, b: string)
    ensures LexLess(a, b) <==>
            exists i :: 0 <= i <= |a| && i < |b| && a[..i] == b[..i] && (i == |a| || UnitRank(a[i]) < UnitRank(b[i]))
    decreases |a|
  {
    if a != "" && b != "" {
      FirstDifferenceDecides(a[1..], b[1..]);
      if UnitRank(a[0]) < UnitRank(b[0]) {
        assert a[..0] == b[..0];
      }
      if a[0] == b[0] && LexLess(a[1..], b[1..]) {
        var i :| 0 <= i <= |a[1..]| && i < |b[1..]| && a[1..][..i] == b[1..][..i] &&
          (i == |a[1..]| || UnitRank(a[1..][i]) < UnitRank(b[1..][i]));
        assert a[..i + 1] == [a[0]] + a[1..][..i] && b[..i + 1] == [b[0]] + b[1..][..i];
      }
      if i :| 0 < i <= |a| && i < |b| && a[..i] == b[..i] && (i == |a| || UnitRank(a[i]) < UnitRank(b[i])) {
        assert a[0] == a[..i][0] == b[..i][0] == b[0];
        assert a[1..][..i - 1] == a[..i][1..] && b[1..][..i - 1] == b[..i][1..];
        assert a[1..][..i - 1] == b[1..][..i - 1];
      }
    } else if b != "" {
      assert a[..0] == b[..0];
    }
  }

  // ---------------------------------------------------------------- index keys

  predicate IsDigits(k: string) {
    k != "" && forall i :: 0 <= i < |k| ==> '0' <= k[i] <= '9'
  }

  function Pow10(n: nat): nat {
    if n == 0 then 1 else 10 * Pow10(n - 1)
  }

  /** The number a text of digits stands for. */
  function Value(k: string): nat {
    if k == "" then 0
    else if '0' <= k[0] <= '9' then ((k[0] as int) - ('0' as int)) * Pow10(|k| - 1) + Value(k[1..])
    else 0
  }

  lemma Times(d: nat, e: nat, p: nat)
    ensures d < e ==> d * p + p <= e * p
  {
    if d < e {
      assert e * p == d * p + (e - d) * p;
      assert (e - d) * p >= p by {
        assert (e - d) * p == p + (e - d - 1) * p;
      }
    }
  }

  lemma {:induction false} ValueFits(k: string)
    requires IsDigits(k)
    ensures Value(k) < Pow10(|k|)
  {
    var d: nat := (k[0] as int) - ('0' as int);
    Times(d, 10, Pow10(|k| - 1));
    if |k| > 1 {
      ValueFits(k[1..]);
    }
  }

  lemma {:induction false} Pow10Grows(m: nat, n: nat)
    requires m <= n
    ensures 1 <= Pow10(m) <= Pow10(n)
    decreases n
  {
    if m < n {
      Pow10Grows(m, n - 1);
    } else if m > 0 {
      Pow10Grows(m - 1, n - 1);
    }
  }

  lemma ValueAtLeast(k: string)
    requires IsDigits(k) && k[0] != '0'
    ensures Value(k) >= Pow10(|k| - 1)
  {
    Times(0, (k[0] as int) - ('0' as int), Pow10(|k| - 1));
  }

  /** Texts of as many digits are ordered as their numbers. */
  lemma {:induction false} LexIsNumeric(a: string, b: string)
    requires IsDigits(a) && IsDigits(b) && |a| == |b|
    ensures LexLess(a, b) <==> Value(a) < Value(b)
    decreases |a|
  {
    var n := |a| - 1;
    var d: nat, e: nat := (a[0] as int) - ('0' as int), (b[0] as int) - ('0' as int);
    Times(d, e, Pow10(n));
    Times(e, d, Pow10(n));
    if n > 0 {
      ValueFits(a[1..]);
      ValueFits(b[1..]);
      LexIsNumeric(a[1..], b[1..]);
    }
  }

  lemma MoreDigits(a: string, b: string)
    requires IsDigits(a) && IsDigits(b) && b[0] != '0' && |a| < |b|
    ensures Value(a) < Value(b)
  {
    ValueFits(a);
    ValueAtLeast(b);
    Pow10Grows(|a|, |b| - 1);
  }

  /** The keys that count as array indices: the numbers below 2^32 - 1, written without leading zeros. */
  lemma IndexKeysMean(k: string)
    ensures IsIndexKey(k) <==> IsDigits(k) && (k == "0" || k[0] != '0') && Value(k) < 0xFFFF_FFFF
  {
    var limit := "4294967295";
    LimitIs(limit);
    if IsDigits(k) && (k == "0" || k[0] != '0') {
      BelowLimit(k, limit);
    }
  }

  lemma BelowLimit(k: string, limit: string)
    requires IsDigits(k) && (k == "0" || k[0] != '0') && IsDigits(limit) && limit[0] != '0' && |limit| == 10
    ensures Value(k) < Value(limit) <==> |k| < 10 || (|k| == 10 && LexLess(k, limit))
  {
    if |k| < 10 {
      MoreDigits(k, limit);
    } else if |k| == 10 {
      LexIsNumeric(k, limit);
    } else {
      MoreDigits(limit, k);
    }
  }

  lemma LimitIs(k: string)
    requires k == "4294967295"
    ensures IsDigits(k) && Value(k) == 0xFFFF_FFFF
  {
    Powers();
    LowerDigits(k);
    DigitAt(k, 0);
    DigitAt(k, 1);
    DigitAt(k, 2);
    DigitAt(k, 3);
    DigitAt(k, 4);
    assert k[0..] == k;
  }

  lemma LowerDigits(k: string)
    requires k == "4294967295"
    ensures Value(k[5..]) == 67_295
  {
    Powers();
    DigitAt(k, 5);
    DigitAt(k, 6);
    DigitAt(k, 7);
    DigitAt(k, 8);
    DigitAt(k, 9);
    assert k[10..] == "";
  }

  lemma DigitAt(k: string, i: nat)
    requires i < |k| && '0' <= k[i] <= '9'
    ensures Value(k[i..]) == ((k[i] as int) - ('0' as int)) * Pow10(|k| - 1 - i) + Value(k[i + 1..])
  {
    assert k[i..][1..] == k[i + 1..];
  }

  lemma Powers()
    ensures Pow10(0) == 1 && Pow10(1) == 10 && Pow10(2) == 100 && Pow10(3) == 1_000 && Pow10(4) == 10_000 && Pow10(5) == 100_000
    ensures Pow10(6) == 1_000_000 && Pow10(7) == 10_000_000 && Pow10(8) == 100_000_000 && Pow10(9) == 1_000_000_000
  {
  }

  /** And among them the order is that of the numbers. */
  lemma IndexKeysByNumber(a: string, b: string)
    requires IsIndexKey(a) && IsIndexKey(b)
    ensures KeyLess(a, b) <==> Value(a) < Value(b)
  {
    if |a| == |b| {
      LexIsNumeric(a, b);
    } else if |a| < |b| {
      MoreDigits(a, b);
    } else {
      MoreDigits(b, a);
    }
  }

  // ---------------------------------------------------------------- the order is total

  lemma UnitRankInjective(c: char, d: char)
    requires UnitRank(c) == UnitRank(d)
    ensures c == d
  {
  }

  lemma {:induction false} LexTotal(a: string, b: string)
    ensures a == b || LexLess(a, b) || LexLess(b, a)
    decreases |a|
  {
    if a != "" && b != "" {
      if UnitRank(a[0]) == UnitRank(b[0]) {
        UnitRankInjective(a[0], b[0]);
        LexTotal(a[1..], b[1..]);
        assert a == [a[0]] + a[1..] && b == [b[0]] + b[1..];
      }
    }
  }

  lemma {:induction false} LexTransitive(a: string, b: string, c: string)
    requires LexLess(a, b) && LexLess(b, c)
    ensures LexLess(a, c)
    decreases |a|
  {
    if a != "" && a[0] == b[0] && b[0] == c[0] && LexLess(a[1..], b[1..]) && LexLess(b[1..], c[1..]) {
      LexTransitive(a[1..], b[1..], c[1..]);
    }
  }

  lemma {:induction false} LexIrreflexive(a: string)
    ensures !LexLess(a, a)
    decreases |a|
  {
    if a != "" {
      LexIrreflexive(a[1..]);
    }
  }

  lemma KeyTotal(a: string, b: string)
    ensures a == b || KeyLess(a, b) || KeyLess(b, a)
  {
    LexTotal(a, b);
  }

  lemma KeyTransitive(a: string, b: string, c: string)
    requires KeyLess(a, b) && KeyLess(b, c)
    ensures KeyLess(a, c)
  {
    if LexLess(a, b) && LexLess(b, c) {
      LexTransitive(a, b, c);
    }
  }

  lemma KeyIrreflexive(a: string)
    ensures !KeyLess(a, a)
  {
    LexIrreflexive(a);
  }

  // ---------------------------------------------------------------- sorting

  function SortValue(v: Json): Json
    decreases v, 1
  {
    match v
    case Arr(items) => Arr(SortItems(items))
    case Obj(ms) => Obj(SortMembers(ms))
    case _ => v
  }

  function SortItems(items: seq<Json>): seq<Json>
    decreases items, 0
  {
    if items == [] then [] else [SortValue(items[0])] + SortItems(items[1..])
  }

  function SortMembers(ms: seq<Member>): seq<Member>
    decreases ms, 0
  {
    if ms == [] then []
    else if ms[0].key == PROTO then SortMembers(ms[1..])
    else Insert(Member(ms[0].key, SortValue(ms[0].value)), SortMembers(ms[1..]))
  }

  function Insert(m: Member, ms: seq<Member>): seq<Member> {
    if ms == [] || KeyLess(m.key, ms[0].key) then [m] + ms else [ms[0]] + Insert(m, ms[1..])
  }

  function CanonicalJson(v: Json): string {
    Stringify(SortValue(v))
  }

  // ---------------------------------------------------------------- meaning

  /** A JSON value without any order of object members. */
  datatype Plain =
    | PNull
    | PBool(b: bool)
    | PNum(text: string)
    | PStr(s: string)
    | PArr(items: seq<Plain>)
    | PObj(members: map<string, Plain>)

  /** The value `v` denotes once members called `dropped` are left out everywhere. */
  function Meaning(v: Json, dropped: set<string>): Plain
    decreases v, 1
  {
    match v
    case Null => PNull
    case Bool(b) => PBool(b)
    case Num(t) => PNum(t)
    case Str(s) => PStr(s)
    case Arr(items) => PArr(ItemMeanings(items, dropped))
    case Obj(ms) => PObj(MemberMeanings(ms, dropped))
  }

  function ItemMeanings(items: seq<Json>, dropped: set<string>): seq<Plain>
    decreases items, 0
  {
    if items == [] then [] else [Meaning(items[0], dropped)] + ItemMeanings(items[1..], dropped)
  }

  function MemberMeanings(ms: seq<Member>, dropped: set<string>): map<string, Plain>
    decreases ms, 0
  {
    if ms == [] then map[]
    else if ms[0].key in dropped then MemberMeanings(ms[1..], dropped)
    else MemberMeanings(ms[1..], dropped)[ms[0].key := Meaning(ms[0].value, dropped)]
  }

  function Lookup(ms: seq<Member>, k: string): Option<Json> {
    if ms == [] then None else if ms[0].key == k then Some(ms[0].value) else Lookup(ms[1..], k)
  }

  lemma {:induction false} MeaningLookup(ms: seq<Member>, dropped: set<string>, k: string)
    ensures k in MemberMeanings(ms, dropped) <==> k !in dropped && Lookup(ms, k).Some?
    ensures k !in dropped && Lookup(ms, k).Some? ==>
              MemberMeanings(ms, dropped)[k] == Meaning(Lookup(ms, k).value, dropped)
  {
    if ms != [] {
      MeaningLookup(ms[1..], dropped, k);
    }
  }

  // ---------------------------------------------------------------- sorted member lists

  ghost predicate Sorted(ms: seq<Member>) {
    forall i, j :: 0 <= i < j < |ms| ==> KeyLess(ms[i].key, ms[j].key)
  }

  lemma {:induction false} LookupAt(ms: seq<Member>, k: string)
    ensures Lookup(ms, k).Some? <==> exists i :: 0 <= i < |ms| && ms[i].key == k
  {
    if ms != [] {
      LookupAt(ms[1..], k);
      if Lookup(ms[1..], k).Some? {
        var i :| 0 <= i < |ms[1..]| && ms[1..][i].key == k;
        assert ms[i + 1].key == k;
      }
      if i :| 0 <= i < |ms| && ms[i].key == k {
        assert i > 0 ==> ms[1..][i - 1].key == k;
      }
    }
  }

  lemma {:induction false} InsertSorts(m: Member, ms: seq<Member>)
    requires Sorted(ms) && Lookup(ms, m.key).None?
    ensures Sorted(Insert(m, ms))
    ensures forall k :: Lookup(Insert(m, ms), k) == if k == m.key then Some(m.value) else Lookup(ms, k)
  {
    if ms == [] {
    } else if KeyLess(m.key, ms[0].key) {
      assert ([m] + ms)[1..] == ms;
      forall j | 0 <= j < |ms|
        ensures KeyLess(m.key, ms[j].key)
      {
        if j > 0 {
          KeyTransitive(m.key, ms[0].key, ms[j].key);
        }
      }
    } else {
      KeyTotal(m.key, ms[0].key);
      var tail := Insert(m, ms[1..]);
      InsertSorts(m, ms[1..]);
      assert ([ms[0]] + tail)[1..] == tail;
      forall j | 0 <= j < |tail|
        ensures KeyLess(ms[0].key, tail[j].key)
      {
        InsertedFrom(m, ms[1..], j);
      }
    }
  }

  lemma {:induction false} InsertedFrom(m: Member, ms: seq<Member>, j: nat)
    requires j < |Insert(m, ms)|
    ensures Insert(m, ms)[j] == m || Insert(m, ms)[j] in ms
  {
    if ms != [] && !KeyLess(m.key, ms[0].key) && j > 0 {
      InsertedFrom(m, ms[1..], j - 1);
    }
  }

  lemma DistinctTail(ms: seq<Member>)
    requires DistinctKeys(ms) && ms != []
    ensures DistinctKeys(ms[1..]) && Lookup(ms[1..], ms[0].key).None?
  {
    LookupAt(ms[1..], ms[0].key);
  }

  lemma {:induction false} SortMembersLookup(ms: seq<Member>)
    requires DistinctKeys(ms)
    ensures Sorted(SortMembers(ms))
    ensures forall k :: Lookup(SortMembers(ms), k) ==
                        if k == PROTO || Lookup(ms, k).None? then None else Some(SortValue(Lookup(ms, k).value))
    decreases |ms|
  {
    if ms != [] {
      DistinctTail(ms);
      SortMembersLookup(ms[1..]);
      if ms[0].key != PROTO {
        InsertSorts(Member(ms[0].key, SortValue(ms[0].value)), SortMembers(ms[1..]));
      }
    }
  }

  lemma {:induction false} SortedUnique(a: seq<Member>, b: seq<Member>)
    requires Sorted(a) && Sorted(b) && forall k :: Lookup(a, k) == Lookup(b, k)
    ensures a == b
    decreases |a|
  {
    assert a != [] ==> Lookup(a, a[0].key).Some?;
    assert b != [] ==> Lookup(b, b[0].key).Some?;
    if a != [] && b != [] {
      SameHead(a, b);
      forall k
        ensures Lookup(a[1..], k) == Lookup(b[1..], k)
      {
        SortedTail(a, k);
        SortedTail(b, k);
      }
      SortedUnique(a[1..], b[1..]);
      assert a == [a[0]] + a[1..] && b == [b[0]] + b[1..];
    }
  }

  lemma SortedTail(a: seq<Member>, k: string)
    requires Sorted(a) && a != []
    ensures Lookup(a[1..], k) == if k == a[0].key then None else Lookup(a, k)
  {
    if k == a[0].key {
      LookupAt(a[1..], k);
      KeyIrreflexive(k);
    }
  }

  lemma SameHead(a: seq<Member>, b: seq<Member>)
    requires Sorted(a) && Sorted(b) && a != [] && b != []
    requires Lookup(a, a[0].key) == Lookup(b, a[0].key) && Lookup(a, b[0].key) == Lookup(b, b[0].key)
    ensures a[0] == b[0]
  {
    LookupAt(a, b[0].key);
    LookupAt(b, a[0].key);
    var i :| 0 <= i < |a| && a[i].key == b[0].key;
    var j :| 0 <= j < |b| && b[j].key == a[0].key;
    if i > 0 && j > 0 {
      KeyTransitive(a[0].key, a[i].key, b[j].key);
      KeyIrreflexive(a[0].key);
    }
  }

  // ---------------------------------------------------------------- sorting keeps the meaning

  lemma {:induction false} SortKeepsWellFormed(v: Json)
    requires WellFormed(v)
    ensures WellFormed(SortValue(v))
    decreases v, 1
  {
    match v
    case Arr(items) => SortItemsWellFormed(items);
    case Obj(ms) =>
      SortMembersLookup(ms);
      SortedIsDistinct(SortMembers(ms));
      SortMembersWellFormed(ms);
    case _ =>
  }

  lemma SortedIsDistinct(ms: seq<Member>)
    requires Sorted(ms)
    ensures DistinctKeys(ms)
  {
    forall i, j | 0 <= i < j < |ms|
      ensures ms[i].key != ms[j].key
    {
      KeyIrreflexive(ms[i].key);
    }
  }

  lemma {:induction false} SortItemsWellFormed(items: seq<Json>)
    requires WellFormedItems(items)
    ensures WellFormedItems(SortItems(items))
    decreases items, 0
  {
    if items != [] {
      SortKeepsWellFormed(items[0]);
      SortItemsWellFormed(items[1..]);
      assert SortItems(items)[1..] == SortItems(items[1..]);
    }
  }

  lemma {:induction false} SortMembersWellFormed(ms: seq<Member>)
    requires WellFormedMembers(ms)
    ensures WellFormedMembers(SortMembers(ms))
    decreases ms, 0
  {
    if ms != [] {
      SortMembersWellFormed(ms[1..]);
      SortKeepsWellFormed(ms[0].value);
      InsertWellFormed(Member(ms[0].key, SortValue(ms[0].value)), SortMembers(ms[1..]));
    }
  }

  lemma {:induction false} InsertWellFormed(m: Member, ms: seq<Member>)
    requires WellFormed(m.value) && WellFormedMembers(ms)
    ensures WellFormedMembers(Insert(m, ms))
  {
    if ms == [] || KeyLess(m.key, ms[0].key) {
      assert ([m] + ms)[1..] == ms;
    } else {
      InsertWellFormed(m, ms[1..]);
      assert Insert(m, ms)[1..] == Insert(m, ms[1..]);
    }
  }

  lemma {:induction false} LookupIsMember(ms: seq<Member>, k: string)
    requires Lookup(ms, k).Some?
    ensures exists i :: 0 <= i < |ms| && ms[i] == Member(k, Lookup(ms, k).value)
  {
    if ms[0].key != k {
      LookupIsMember(ms[1..], k);
      var i :| 0 <= i < |ms[1..]| && ms[1..][i] == Member(k, Lookup(ms[1..], k).value);
      assert ms[i + 1] == ms[1..][i];
    }
  }

  lemma {:induction false} MemberWellFormed(ms: seq<Member>, i: nat)
    requires WellFormedMembers(ms) && i < |ms|
    ensures WellFormed(ms[i].value)
  {
    if i > 0 {
      MemberWellFormed(ms[1..], i - 1);
    }
  }

  /** Sorting drops exactly the "__proto__" members and otherwise keeps the value. */
  lemma {:induction false} SortMeaning(v: Json)
    requires WellFormed(v)
    ensures Meaning(SortValue(v), {}) == Meaning(v, {PROTO})
    decreases v, 1
  {
    match v
    case Arr(items) => SortItemsMeaning(items);
    case Obj(ms) => SortMembersMeaning(ms);
    case _ =>
  }

  lemma {:induction false} SortItemsMeaning(items: seq<Json>)
    requires WellFormedItems(items)
    ensures ItemMeanings(SortItems(items), {}) == ItemMeanings(items, {PROTO})
    decreases items, 0
  {
    if items != [] {
      SortMeaning(items[0]);
      SortItemsMeaning(items[1..]);
      assert SortItems(items)[1..] == SortItems(items[1..]);
    }
  }

  lemma {:induction false} SortMembersMeaning(ms: seq<Member>)
    requires DistinctKeys(ms) && WellFormedMembers(ms)
    ensures MemberMeanings(SortMembers(ms), {}) == MemberMeanings(ms, {PROTO})
    decreases ms, 0
  {
    SortMembersLookup(ms);
    var sorted := MemberMeanings(SortMembers(ms), {});
    var plain := MemberMeanings(ms, {PROTO});
    forall k
      ensures (k in sorted <==> k in plain) && (k in sorted ==> sorted[k] == plain[k])
    {
      MeaningLookup(SortMembers(ms), {}, k);
      MeaningLookup(ms, {PROTO}, k);
      if k in sorted {
        LookupIsMember(ms, k);
        var i :| 0 <= i < |ms| && ms[i] == Member(k, Lookup(ms, k).value);
        MemberWellFormed(ms, i);
        SortMeaning(ms[i].value);
      }
    }
  }

  // ---------------------------------------------------------------- the canonical form is canonical

  lemma {:induction false} SameMeaningSameSort(v: Json, w: Json)
    requires WellFormed(v) && WellFormed(w) && Meaning(v, {PROTO}) == Meaning(w, {PROTO})
    ensures SortValue(v) == SortValue(w)
    decreases v, 1
  {
    match v
    case Arr(items) => SameItems(items, w.items);
    case Obj(ms) => SameMembers(ms, w.members);
    case _ =>
  }

  lemma {:induction false} SameItems(a: seq<Json>, b: seq<Json>)
    requires WellFormedItems(a) && WellFormedItems(b) && ItemMeanings(a, {PROTO}) == ItemMeanings(b, {PROTO})
    ensures SortItems(a) == SortItems(b)
    decreases a, 0
  {
    if a != [] && b != [] {
      assert ItemMeanings(a, {PROTO})[0] == ItemMeanings(b, {PROTO})[0];
      assert ItemMeanings(a, {PROTO})[1..] == ItemMeanings(b, {PROTO})[1..];
      SameMeaningSameSort(a[0], b[0]);
      SameItems(a[1..], b[1..]);
    }
  }

  lemma {:induction false} SameMembers(a: seq<Member>, b: seq<Member>)
    requires DistinctKeys(a) && WellFormedMembers(a) && DistinctKeys(b) && WellFormedMembers(b)
    requires MemberMeanings(a, {PROTO}) == MemberMeanings(b, {PROTO})
    ensures SortMembers(a) == SortMembers(b)
    decreases a, 0
  {
    SortMembersLookup(a);
    SortMembersLookup(b);
    forall k
      ensures Lookup(SortMembers(a), k) == Lookup(SortMembers(b), k)
    {
      MeaningLookup(a, {PROTO}, k);
      MeaningLookup(b, {PROTO}, k);
      if k != PROTO && Lookup(a, k).Some? {
        LookupIsMember(a, k);
        LookupIsMember(b, k);
        var i :| 0 <= i < |a| && a[i] == Member(k, Lookup(a, k).value);
        var j :| 0 <= j < |b| && b[j] == Member(k, Lookup(b, k).value);
        MemberWellFormed(a, i);
        MemberWellFormed(b, j);
        SameMeaningSameSort(a[i].value, b[j].value);
      }
    }
    SortedUnique(SortMembers(a), SortMembers(b));
  }

  /** Two values have the same canonical text exactly when they are equal up to the order of object
      members and up to members called "__proto__". */
  lemma CanonicalIffSameMeaning(v: Json, w: Json)
    requires WellFormed(v) && WellFormed(w)
    ensures CanonicalJson(v) == CanonicalJson(w) <==> Meaning(v, {PROTO}) == Meaning(w, {PROTO})
  {
    if CanonicalJson(v) == CanonicalJson(w) {
      SortKeepsWellFormed(v);
      SortKeepsWellFormed(w);
      ParseStringify(SortValue(v));
      ParseStringify(SortValue(w));
      SortMeaning(v);
      SortMeaning(w);
    }
    if Meaning(v, {PROTO}) == Meaning(w, {PROTO}) {
      SameMeaningSameSort(v, w);
    }
  }

  ghost predicate HasNoProto(v: Json)
    decreases v, 1
  {
    match v
    case Arr(items) => forall x :: x in items ==> HasNoProto(x)
    case Obj(ms) => forall m :: m in ms ==> m.key != PROTO && HasNoProto(m.value)
    case _ => true
  }

  lemma {:induction false} NothingDropped(v: Json)
    requires HasNoProto(v)
    ensures Meaning(v, {PROTO}) == Meaning(v, {})
    decreases v, 1
  {
    match v
    case Arr(items) => NoItemDropped(items);
    case Obj(ms) => NoMemberDropped(ms);
    case _ =>
  }

  lemma {:induction false} NoItemDropped(items: seq<Json>)
    requires forall x :: x in items ==> HasNoProto(x)
    ensures ItemMeanings(items, {PROTO}) == ItemMeanings(items, {})
    decreases items, 0
  {
    if items != [] {
      NothingDropped(items[0]);
      NoItemDropped(items[1..]);
    }
  }

  lemma {:induction false} NoMemberDropped(ms: seq<Member>)
    requires forall m :: m in ms ==> m.key != PROTO && HasNoProto(m.value)
    ensures MemberMeanings(ms, {PROTO}) == MemberMeanings(ms, {})
    decreases ms, 0
  {
    if ms != [] {
      assert ms[0] in ms;
      NothingDropped(ms[0].value);
      NoMemberDropped(ms[1..]);
    }
  }

  /** Among values without a "__proto__" member the canonical text decides equality up to member order. */
  lemma CanonicalIffEqual(v: Json, w: Json)
    requires WellFormed(v) && WellFormed(w) && HasNoProto(v) && HasNoProto(w)
    ensures CanonicalJson(v) == CanonicalJson(w) <==> Meaning(v, {}) == Meaning(w, {})
  {
    CanonicalIffSameMeaning(v, w);
    NothingDropped(v);
    NothingDropped(w);
  }

  /** With a "__proto__" member it does not: this object and the empty one share their text. */
  lemma ProtoExample()
    ensures var v := Obj([Member("__proto__", Num("1"))]);
            WellFormed(v) && CanonicalJson(v) == CanonicalJson(Obj([])) && Meaning(v, {}) != Meaning(Obj([]), {})
  {
    var ms := [Member("__proto__", Num("1"))];
    assert ms[1..] == [] && IsNumberText("1");
    assert "__proto__" in MemberMeanings(ms, {});
  }
}
