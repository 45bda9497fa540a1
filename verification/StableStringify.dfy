module StableStringify {
  // The canonical serialiser behind the cache key: JSON text with sorted object keys and normalised string values.
  // Texts are sequences of UTF-16 code units; the Unicode normalisation of string values is a parameter.

  import opened Utf16

  /** A JavaScript value as stableStringify sees it. A finite number is given by its shortest decimal text. */
  datatype Js = Undefined | Null | NotFinite | Bool(b: bool) | Num(digits: Text) | Str(s: Text) | Arr(items: seq<Js>) | Obj(entries: seq<Entry>)
  datatype Entry = Entry(key: Text, value: Js)

  /** What the value means as JSON: undefined properties do not exist, objects have no key order. */
  datatype Value = VNull | VBool(b: bool) | VNum(digits: Text) | VStr(s: Text) | VArr(items: seq<Value>) | VObj(members: map<Text, Value>)

  // ---------- code units ----------

  const QUOTE: Unit := 34
  const COMMA: Unit := 44
  const COLON: Unit := 58
  const OPEN_ARRAY: Unit := 91
  const BACKSLASH: Unit := 92
  const CLOSE_ARRAY: Unit := 93
  const OPEN_OBJECT: Unit := 123
  const CLOSE_OBJECT: Unit := 125

  const NULL_TEXT: Text := [110, 117, 108, 108]
  const TRUE_TEXT: Text := [116, 114, 117, 101]
  const FALSE_TEXT: Text := [102, 97, 108, 115, 101]

  predicate IsNumberUnit(u: Unit) { 48 <= u <= 57 || u in {43, 45, 46, 101} }

  /** Number texts start with a digit or a minus sign and use only + - . e and digits. */
  predicate IsNumberText(t: Text) {
    t != [] && (48 <= t[0] <= 57 || t[0] == 45) && forall i :: 0 <= i < |t| ==> IsNumberUnit(t[i])
  }

  // ---------- strings (section 7 of RFC 8259, lone surrogates escaped) ----------

  function HexDigit(d: int): Unit
    requires 0 <= d < 16
  {
    if d < 10 then (48 + d) as Unit else (87 + d) as Unit
  }

  function HexEscape(u: Unit): Text {
    var n := u as int;
    [BACKSLASH, 117, HexDigit(n / 4096), HexDigit(n / 256 % 16), HexDigit(n / 16 % 16), HexDigit(n % 16)]
  }

  /** Letter of the two-character escape of u, or 0 when it has none. */
  function ShortEscape(u: Unit): Unit {
    if u == QUOTE then QUOTE else if u == BACKSLASH then BACKSLASH
    else if u == 8 then 98 else if u == 12 then 102 else if u == 10 then 110 else if u == 13 then 114 else if u == 9 then 116 else 0
  }

  /** How many units the first chunk of s takes: two for a surrogate pair. */
  function Taken(s: Text): nat
    requires s != []
  {
    if IsHigh(s[0]) && |s| > 1 && IsLow(s[1]) then 2 else 1
  }

  function Chunk(s: Text): Text
    requires s != []
  {
    if Taken(s) == 2 then [s[0], s[1]]
    else if ShortEscape(s[0]) != 0 then [BACKSLASH, ShortEscape(s[0])]
    else if s[0] < 32 || IsHigh(s[0]) || IsLow(s[0]) then HexEscape(s[0])
    else [s[0]]
  }

  function Escaped(s: Text): Text {
    if s == [] then [] else Chunk(s) + Escaped(s[Taken(s)..])
  }

  function Quoted(s: Text): Text { [QUOTE] + Escaped(s) + [QUOTE] }

  // ---------- key order (section 3.2.3 of RFC 8785: by code units) ----------

  predicate Before(a: Text, b: Text) {
    if b == [] then false else if a == [] then true else if a[0] != b[0] then a[0] < b[0] else Before(a[1..], b[1..])
  }

  predicate Sorted(es: seq<Entry>) {
    forall i, j :: 0 <= i < j < |es| ==> Before(es[i].key, es[j].key)
  }

  predicate DistinctKeys(es: seq<Entry>) {
    forall i, j :: 0 <= i < j < |es| ==> es[i].key != es[j].key
  }

  function Insert(e: Entry, es: seq<Entry>): seq<Entry> {
    if es == [] then [e] else if Before(e.key, es[0].key) then [e] + es else [es[0]] + Insert(e, es[1..])
  }

  /** The defined properties, sorted by key. */
  function Canonical(es: seq<Entry>): (r: seq<Entry>) {
    if es == [] then []
    else if es[0].value.Undefined? then Canonical(es[1..])
    else Insert(es[0], Canonical(es[1..]))
  }

  // ---------- sizes, for termination ----------

  ghost function Size(v: Js): nat {
    match v
    case Arr(items) => 1 + SizeItems(items)
    case Obj(entries) => 1 + SizeEntries(entries)
    case _ => 1
  }

  ghost function SizeItems(xs: seq<Js>): nat {
    if xs == [] then 0 else Size(xs[0]) + SizeItems(xs[1..])
  }

  ghost function SizeEntries(es: seq<Entry>): nat {
    if es == [] then 0 else Size(es[0].value) + SizeEntries(es[1..])
  }

  lemma SizePositive(v: Js)
    ensures Size(v) >= 1
  {
  }

  lemma {:induction false} InsertSize(e: Entry, es: seq<Entry>)
    ensures SizeEntries(Insert(e, es)) == Size(e.value) + SizeEntries(es)
  {
    if es != [] {
      if Before(e.key, es[0].key) {
        assert ([e] + es)[1..] == es;
      } else {
        InsertSize(e, es[1..]);
        assert ([es[0]] + Insert(e, es[1..]))[1..] == Insert(e, es[1..]);
      }
    }
  }

  lemma {:induction false} CanonicalSize(es: seq<Entry>)
    ensures SizeEntries(Canonical(es)) <= SizeEntries(es)
  {
    if es != [] {
      CanonicalSize(es[1..]);
      if !es[0].value.Undefined? { InsertSize(es[0], Canonical(es[1..])); }
    }
  }

  // ---------- the serialiser ----------

  function Stringify(nfc: Text -> Text, v: Js): Text
    decreases Size(v), 0
  {
    match v
    case Str(s) => Quoted(nfc(s))
    case Undefined => NULL_TEXT
    case Null => NULL_TEXT
    case NotFinite => NULL_TEXT
    case Bool(b) => if b then TRUE_TEXT else FALSE_TEXT
    case Num(digits) => digits
    case Arr(items) => [OPEN_ARRAY] + Items(nfc, items) + [CLOSE_ARRAY]
    case Obj(entries) =>
      CanonicalSize(entries);
      [OPEN_OBJECT] + Members(nfc, Canonical(entries)) + [CLOSE_OBJECT]
  }

  function Items(nfc: Text -> Text, xs: seq<Js>): Text
    decreases SizeItems(xs), 1, |xs|
  {
    if xs == [] then [] else
      Stringify(nfc, xs[0]) + if |xs| == 1 then [] else [COMMA] + Items(nfc, xs[1..])
  }

  function Member(nfc: Text -> Text, e: Entry): Text
    decreases Size(e.value), 1
  {
    Quoted(e.key) + [COLON] + Stringify(nfc, e.value)
  }

  function Members(nfc: Text -> Text, es: seq<Entry>): Text
    decreases SizeEntries(es), 2, |es|
  {
    if es == [] then [] else
      Member(nfc, es[0]) + if |es| == 1 then [] else [COMMA] + Members(nfc, es[1..])
  }

  // ---------- meaning ----------

  ghost function Meaning(nfc: Text -> Text, v: Js): Value {
    match v
    case Str(s) => VStr(nfc(s))
    case Undefined => VNull
    case Null => VNull
    case NotFinite => VNull
    case Bool(b) => VBool(b)
    case Num(digits) => VNum(digits)
    case Arr(items) => VArr(MeaningItems(nfc, items))
    case Obj(entries) => VObj(MeaningEntries(nfc, entries))
  }

  ghost function MeaningItems(nfc: Text -> Text, xs: seq<Js>): (r: seq<Value>)
    ensures |r| == |xs|
  {
    if xs == [] then [] else [Meaning(nfc, xs[0])] + MeaningItems(nfc, xs[1..])
  }

  ghost function MeaningEntries(nfc: Text -> Text, es: seq<Entry>): map<Text, Value> {
    if es == [] then map[]
    else if es[0].value.Undefined? then MeaningEntries(nfc, es[1..])
    else MeaningEntries(nfc, es[1..])[es[0].key := Meaning(nfc, es[0].value)]
  }

  /** Values JavaScript can hold: number texts are number texts and an object has each key once. */
  ghost predicate WellFormed(v: Js) {
    match v
    case Num(digits) => IsNumberText(digits)
    case Arr(items) => forall x :: x in items ==> WellFormed(x)
    case Obj(entries) => DistinctKeys(entries) && forall e :: e in entries ==> WellFormed(e.value)
    case _ => true
  }

  ghost predicate WellFormedEntries(es: seq<Entry>) {
    DistinctKeys(es) && forall e :: e in es ==> WellFormed(e.value)
  }

  ghost predicate AllDefined(es: seq<Entry>) {
    forall e :: e in es ==> !e.value.Undefined?
  }

  // ---------- the key order is a total order ----------

  lemma {:induction false} BeforeTotal(a: Text, b: Text)
    ensures a == b || Before(a, b) || Before(b, a)
    ensures !(Before(a, b) && Before(b, a))
    ensures Before(a, b) ==> a != b
  {
    if a != [] && b != [] {
      BeforeTotal(a[1..], b[1..]);
      if a[0] == b[0] && a[1..] == b[1..] { assert a == [a[0]] + a[1..] == b; }
    }
  }

  lemma {:induction false} BeforeTransitive(a: Text, b: Text, c: Text)
    requires Before(a, b) && Before(b, c)
    ensures Before(a, c)
  {
    if a != [] && a[0] == b[0] == c[0] { BeforeTransitive(a[1..], b[1..], c[1..]); }
  }

  lemma {:induction false} InsertSorted(e: Entry, es: seq<Entry>)
    requires Sorted(es) && forall x :: x in es ==> x.key != e.key
    ensures Sorted(Insert(e, es))
    ensures forall x :: x in Insert(e, es) <==> x == e || x in es
  {
    if es != [] {
      if Before(e.key, es[0].key) {
        forall j | 0 < j < |es| ensures Before(e.key, es[j].key) { BeforeTransitive(e.key, es[0].key, es[j].key); }
      } else {
        BeforeTotal(e.key, es[0].key);
        InsertSorted(e, es[1..]);
        var rest := Insert(e, es[1..]);
        forall j | 0 <= j < |rest| ensures Before(es[0].key, rest[j].key) {
          assert rest[j] in rest;
          if rest[j] in es[1..] { var k :| 0 <= k < |es[1..]| && es[1..][k] == rest[j]; assert es[k + 1] == rest[j]; }
        }
        assert es == [es[0]] + es[1..];
      }
    }
  }

  lemma {:induction false} CanonicalSorted(es: seq<Entry>)
    requires DistinctKeys(es)
    ensures Sorted(Canonical(es))
    ensures forall x :: x in Canonical(es) <==> x in es && !x.value.Undefined?
  {
    if es != [] {
      CanonicalSorted(es[1..]);
      assert es == [es[0]] + es[1..];
      forall x | x in es[1..] ensures x.key != es[0].key {
        var k :| 0 <= k < |es[1..]| && es[1..][k] == x;
        assert es[k + 1] == x;
      }
      if !es[0].value.Undefined? { InsertSorted(es[0], Canonical(es[1..])); }
    }
  }

  lemma SortedDistinct(es: seq<Entry>)
    requires Sorted(es)
    ensures DistinctKeys(es)
  {
    forall i, j | 0 <= i < j < |es| ensures es[i].key != es[j].key { BeforeTotal(es[i].key, es[j].key); }
  }

  // ---------- the members of an object do not depend on their order ----------

  lemma KeysApart(es: seq<Entry>)
    requires DistinctKeys(es) && es != []
    ensures DistinctKeys(es[1..]) && forall e :: e in es[1..] ==> e.key != es[0].key
    ensures forall e :: e in es <==> e == es[0] || e in es[1..]
  {
    assert es == [es[0]] + es[1..];
    forall e | e in es[1..] ensures e.key != es[0].key {
      var k :| 0 <= k < |es[1..]| && es[1..][k] == e;
      assert es[k + 1] == e;
    }
  }

  lemma {:induction false} MembersPresent(nfc: Text -> Text, es: seq<Entry>, e: Entry)
    requires DistinctKeys(es) && e in es && !e.value.Undefined?
    ensures e.key in MeaningEntries(nfc, es) && MeaningEntries(nfc, es)[e.key] == Meaning(nfc, e.value)
  {
    KeysApart(es);
    if e != es[0] { MembersPresent(nfc, es[1..], e); }
  }

  lemma {:induction false} MembersOnly(nfc: Text -> Text, es: seq<Entry>, k: Text) returns (e: Entry)
    requires k in MeaningEntries(nfc, es)
    ensures e in es && !e.value.Undefined? && e.key == k
  {
    if !es[0].value.Undefined? && es[0].key == k { e := es[0]; } else { e := MembersOnly(nfc, es[1..], k); }
  }

  lemma CanonicalMeaning(nfc: Text -> Text, es: seq<Entry>)
    requires WellFormedEntries(es)
    ensures MeaningEntries(nfc, Canonical(es)) == MeaningEntries(nfc, es)
    ensures WellFormedEntries(Canonical(es)) && AllDefined(Canonical(es)) && Sorted(Canonical(es))
  {
    CanonicalSorted(es);
    SortedDistinct(Canonical(es));
    var a, b := MeaningEntries(nfc, es), MeaningEntries(nfc, Canonical(es));
    forall k | k in a ensures k in b && a[k] == b[k] {
      var e := MembersOnly(nfc, es, k);
      MembersPresent(nfc, es, e);
      MembersPresent(nfc, Canonical(es), e);
    }
    forall k | k in b ensures k in a {
      var e := MembersOnly(nfc, Canonical(es), k);
      MembersPresent(nfc, es, e);
    }
  }

  /** Same keys in the same places, with the same meanings. */
  ghost predicate SameMembers(nfc: Text -> Text, a: seq<Entry>, b: seq<Entry>) {
    |a| == |b| && forall i :: 0 <= i < |a| ==> a[i].key == b[i].key && Meaning(nfc, a[i].value) == Meaning(nfc, b[i].value)
  }

  lemma FirstKeyIsLeast(nfc: Text -> Text, a: seq<Entry>, b: seq<Entry>)
    requires Sorted(a) && Sorted(b) && AllDefined(a) && AllDefined(b) && a != []
    requires MeaningEntries(nfc, a) == MeaningEntries(nfc, b)
    ensures b != [] && !Before(a[0].key, b[0].key)
  {
    SortedDistinct(a);
    assert a[0] in a;
    MembersPresent(nfc, a, a[0]);
    var e := MembersOnly(nfc, b, a[0].key);
    var k :| 0 <= k < |b| && b[k] == e;
    if k > 0 { BeforeTotal(b[0].key, b[k].key); } else { BeforeTotal(a[0].key, b[0].key); }
  }

  lemma DropFirst(nfc: Text -> Text, a: seq<Entry>)
    requires Sorted(a) && AllDefined(a) && a != []
    ensures Sorted(a[1..]) && AllDefined(a[1..])
    ensures MeaningEntries(nfc, a[1..]) == MeaningEntries(nfc, a) - {a[0].key}
    ensures a[0].key in MeaningEntries(nfc, a) && MeaningEntries(nfc, a)[a[0].key] == Meaning(nfc, a[0].value)
  {
    assert a[0] in a;
    SortedDistinct(a);
    MembersPresent(nfc, a, a[0]);
    KeysApart(a);
    forall k | k in MeaningEntries(nfc, a[1..]) ensures k != a[0].key { var e := MembersOnly(nfc, a[1..], k); }
  }

  /** Sorted members with the same meaning are the same members in the same places. */
  lemma {:induction false} SortedMembersUnique(nfc: Text -> Text, a: seq<Entry>, b: seq<Entry>)
    requires Sorted(a) && Sorted(b) && AllDefined(a) && AllDefined(b)
    requires MeaningEntries(nfc, a) == MeaningEntries(nfc, b)
    ensures SameMembers(nfc, a, b)
  {
    if a == [] {
      if b != [] { FirstKeyIsLeast(nfc, b, a); }
    } else {
      FirstKeyIsLeast(nfc, a, b);
      FirstKeyIsLeast(nfc, b, a);
      BeforeTotal(a[0].key, b[0].key);
      DropFirst(nfc, a);
      DropFirst(nfc, b);
      SortedMembersUnique(nfc, a[1..], b[1..]);
      forall i | 0 <= i < |a| ensures a[i].key == b[i].key && Meaning(nfc, a[i].value) == Meaning(nfc, b[i].value) {
        if i > 0 { assert a[i] == a[1..][i - 1] && b[i] == b[1..][i - 1]; }
      }
    }
  }

  lemma {:induction false} MeaningOfSameMembers(nfc: Text -> Text, a: seq<Entry>, b: seq<Entry>)
    requires SameMembers(nfc, a, b) && AllDefined(a) && AllDefined(b)
    ensures MeaningEntries(nfc, a) == MeaningEntries(nfc, b)
  {
    if a != [] {
      assert a[0] in a && b[0] in b;
      assert forall i :: 0 <= i < |a| - 1 ==> a[1..][i] == a[i + 1] && b[1..][i] == b[i + 1];
      MeaningOfSameMembers(nfc, a[1..], b[1..]);
    }
  }

  // ---------- canonical: the text depends only on the meaning ----------

  lemma {:induction false} SameMeaningSameText(nfc: Text -> Text, u: Js, v: Js)
    requires WellFormed(u) && WellFormed(v) && Meaning(nfc, u) == Meaning(nfc, v)
    ensures Stringify(nfc, u) == Stringify(nfc, v)
    decreases Size(u), 0
  {
    match u {
      case Arr(items) =>
        SameItemsSameText(nfc, items, v.items);
      case Obj(entries) =>
        CanonicalMeaning(nfc, entries);
        CanonicalMeaning(nfc, v.entries);
        CanonicalSize(entries);
        SortedMembersUnique(nfc, Canonical(entries), Canonical(v.entries));
        SameMembersSameText(nfc, Canonical(entries), Canonical(v.entries));
      case _ =>
    }
  }

  lemma {:induction false} SameItemsSameText(nfc: Text -> Text, xs: seq<Js>, ys: seq<Js>)
    requires (forall x :: x in xs ==> WellFormed(x)) && (forall y :: y in ys ==> WellFormed(y))
    requires MeaningItems(nfc, xs) == MeaningItems(nfc, ys)
    ensures Items(nfc, xs) == Items(nfc, ys)
    decreases SizeItems(xs), 1, |xs|
  {
    assert |xs| == |ys|;
    if xs != [] {
      var mx, my := MeaningItems(nfc, xs), MeaningItems(nfc, ys);
      assert mx[0] == my[0] && mx[1..] == my[1..];
      assert mx[1..] == MeaningItems(nfc, xs[1..]) && my[1..] == MeaningItems(nfc, ys[1..]);
      SameMeaningSameText(nfc, xs[0], ys[0]);
      SameItemsSameText(nfc, xs[1..], ys[1..]);
    }
  }

  lemma {:induction false} SameMembersSameText(nfc: Text -> Text, a: seq<Entry>, b: seq<Entry>)
    requires WellFormedEntries(a) && WellFormedEntries(b) && SameMembers(nfc, a, b)
    ensures Members(nfc, a) == Members(nfc, b)
    decreases SizeEntries(a), 2, |a|
  {
    if a != [] {
      assert a[0] in a && b[0] in b;
      SameMeaningSameText(nfc, a[0].value, b[0].value);
      assert forall i :: 0 <= i < |a| - 1 ==> a[1..][i] == a[i + 1] && b[1..][i] == b[i + 1];
      SameMembersSameText(nfc, a[1..], b[1..]);
    }
  }

  // ---------- injective: the text can be read back in one way only ----------

  lemma HexInjective(u: Unit, v: Unit)
    requires HexEscape(u) == HexEscape(v)
    ensures u == v
  {
    var m, n := u as int, v as int;
    var a, b := HexEscape(u), HexEscape(v);
    assert a[2] == b[2] && a[3] == b[3] && a[4] == b[4] && a[5] == b[5];
    DigitInjective(m / 4096, n / 4096);
    DigitInjective(m / 256 % 16, n / 256 % 16);
    DigitInjective(m / 16 % 16, n / 16 % 16);
    DigitInjective(m % 16, n % 16);
    HexValue(m);
    HexValue(n);
  }

  lemma DigitInjective(c: int, d: int)
    requires 0 <= c < 16 && 0 <= d < 16 && HexDigit(c) == HexDigit(d)
    ensures c == d
  {
  }

  lemma HexValue(n: int)
    requires 0 <= n < 0x10000
    ensures n == n / 4096 * 4096 + n / 256 % 16 * 256 + n / 16 % 16 * 16 + n % 16
  {
    assert n / 16 / 16 == n / 256 && n / 256 / 16 == n / 4096;
  }

  lemma ShortInjective(u: Unit, v: Unit)
    requires ShortEscape(u) == ShortEscape(v) != 0
    ensures u == v
  {
  }

  /** The first chunk of an escaped text tells which units it stands for. */
  lemma ChunkDetermined(a: Text, b: Text, x: Text, y: Text)
    requires a != [] && b != [] && Chunk(a) + x == Chunk(b) + y
    requires (|a| == 1 || x != []) && (|b| == 1 || y != [])
    ensures Taken(a) == Taken(b) && a[..Taken(a)] == b[..Taken(b)] && x == y
  {
    var l, r := Chunk(a) + x, Chunk(b) + y;
    assert l[0] == Chunk(a)[0] && r[0] == Chunk(b)[0];
    if Chunk(a)[0] == BACKSLASH {
      assert l[1] == Chunk(a)[1] && r[1] == Chunk(b)[1];
      if Chunk(a)[1] == 117 {
        assert Chunk(a) == HexEscape(a[0]) && Chunk(b) == HexEscape(b[0]);
        assert l[..6] == Chunk(a) && r[..6] == Chunk(b);
        HexInjective(a[0], b[0]);
        assert l[6..] == x && r[6..] == y;
      } else {
        ShortInjective(a[0], b[0]);
        assert l[2..] == x && r[2..] == y;
      }
    } else if Taken(a) == 2 {
      assert l[1] == a[1];
      assert Taken(b) == 2;
      assert r[1] == b[1];
      assert l[2..] == x && r[2..] == y;
    } else {
      assert Chunk(b) == [b[0]];
      assert l[1..] == x && r[1..] == y;
    }
  }

  /** The closing quote comes first exactly when nothing is left. */
  lemma EndsWhereEmpty(a: Text, rest: Text)
    ensures (Escaped(a) + [QUOTE] + rest)[0] == QUOTE <==> a == []
  {
    if a != [] { assert (Escaped(a) + [QUOTE] + rest)[0] == Chunk(a)[0]; }
  }

  lemma Regroup(c: Text, e: Text, rest: Text)
    ensures (c + e) + [QUOTE] + rest == c + (e + [QUOTE] + rest)
  {
  }

  /** An escaped text and what follows it, one chunk taken off. */
  lemma ChunkOff(a: Text, rest: Text)
    requires a != []
    ensures Escaped(a) + [QUOTE] + rest == Chunk(a) + (Escaped(a[Taken(a)..]) + [QUOTE] + rest)
    ensures a == a[..Taken(a)] + a[Taken(a)..]
  {
    Regroup(Chunk(a), Escaped(a[Taken(a)..]), rest);
  }

  lemma EmptyPrefix(r1: Text, r2: Text)
    requires Escaped([]) + [QUOTE] + r1 == Escaped([]) + [QUOTE] + r2
    ensures r1 == r2
  {
    var l, r := Escaped([]) + [QUOTE] + r1, Escaped([]) + [QUOTE] + r2;
    assert l[1..] == r1 && r[1..] == r2;
  }

  lemma {:induction false} EscapedPrefix(a: Text, b: Text, r1: Text, r2: Text)
    requires Escaped(a) + [QUOTE] + r1 == Escaped(b) + [QUOTE] + r2
    ensures a == b && r1 == r2
    decreases |a| + |b|
  {
    EndsWhereEmpty(a, r1);
    EndsWhereEmpty(b, r2);
    if a == [] {
      EmptyPrefix(r1, r2);
    } else {
      var a', b' := a[Taken(a)..], b[Taken(b)..];
      var x, y := Escaped(a') + [QUOTE] + r1, Escaped(b') + [QUOTE] + r2;
      ChunkOff(a, r1);
      ChunkOff(b, r2);
      ChunkDetermined(a, b, x, y);
      EscapedPrefix(a', b', r1, r2);
    }
  }

  lemma QuotedPrefix(a: Text, b: Text, r1: Text, r2: Text)
    requires Quoted(a) + r1 == Quoted(b) + r2
    ensures a == b && r1 == r2
  {
    var l, r := Quoted(a) + r1, Quoted(b) + r2;
    assert l[1..] == Escaped(a) + [QUOTE] + r1 && r[1..] == Escaped(b) + [QUOTE] + r2;
    EscapedPrefix(a, b, r1, r2);
  }

  /** What can follow a value inside a JSON text. */
  predicate Delimited(rest: Text) {
    rest == [] || rest[0] in {COMMA, CLOSE_ARRAY, CLOSE_OBJECT}
  }

  /** Length of the longest prefix made of number units. */
  function NumberRun(t: Text): nat {
    if t == [] || !IsNumberUnit(t[0]) then 0 else 1 + NumberRun(t[1..])
  }

  lemma {:induction false} RunOf(a: Text, rest: Text)
    requires (forall i :: 0 <= i < |a| ==> IsNumberUnit(a[i])) && Delimited(rest)
    ensures NumberRun(a + rest) == |a|
  {
    if a == [] {
      assert a + rest == rest;
    } else {
      assert (a + rest)[1..] == a[1..] + rest;
      RunOf(a[1..], rest);
    }
  }

  lemma NumberPrefix(a: Text, b: Text, r1: Text, r2: Text)
    requires (forall i :: 0 <= i < |a| ==> IsNumberUnit(a[i])) && (forall i :: 0 <= i < |b| ==> IsNumberUnit(b[i]))
    requires Delimited(r1) && Delimited(r2) && a + r1 == b + r2
    ensures a == b && r1 == r2
  {
    RunOf(a, r1);
    RunOf(b, r2);
    SplitAt(a, b, r1, r2);
  }

  lemma SplitAt(a: Text, b: Text, r1: Text, r2: Text)
    requires |a| == |b| && a + r1 == b + r2
    ensures a == b && r1 == r2
  {
    assert a == (a + r1)[..|a|] && b == (b + r2)[..|b|];
    assert r1 == (a + r1)[|a|..] && r2 == (b + r2)[|b|..];
  }

  /** Kinds of values, told apart by the first unit of their text. */
  ghost function Kind(v: Js): Unit {
    match v
    case Str(_) => QUOTE
    case Bool(b) => if b then 116 else 102
    case Num(_) => 48
    case Arr(_) => OPEN_ARRAY
    case Obj(_) => OPEN_OBJECT
    case _ => 110
  }

  lemma FirstUnit(nfc: Text -> Text, v: Js)
    requires WellFormed(v)
    ensures Stringify(nfc, v) != []
    ensures var first := Stringify(nfc, v)[0]; if v.Num? then 48 <= first <= 57 || first == 45 else first == Kind(v)
  {
  }

  lemma {:induction false} TextDetermines(nfc: Text -> Text, u: Js, v: Js, r1: Text, r2: Text)
    requires WellFormed(u) && WellFormed(v) && Delimited(r1) && Delimited(r2)
    requires Stringify(nfc, u) + r1 == Stringify(nfc, v) + r2
    ensures Meaning(nfc, u) == Meaning(nfc, v) && r1 == r2
    decreases Size(u), 0
  {
    var l, r := Stringify(nfc, u) + r1, Stringify(nfc, v) + r2;
    FirstUnit(nfc, u);
    FirstUnit(nfc, v);
    assert l[0] == Stringify(nfc, u)[0] && r[0] == Stringify(nfc, v)[0];
    assert Kind(u) == Kind(v);
    match u {
      case Str(s) =>
        QuotedPrefix(nfc(s), nfc(v.s), r1, r2);
      case Num(digits) =>
        NumberPrefix(digits, v.digits, r1, r2);
      case Arr(items) =>
        ArrayDetermines(nfc, items, v.items, r1, r2);
      case Obj(entries) =>
        ObjectDetermines(nfc, entries, v.entries, r1, r2);
      case _ =>
        SplitAt(Stringify(nfc, u), Stringify(nfc, v), r1, r2);
    }
  }

  lemma OpenBracket(open: Unit, a: Text, b: Text, close: Unit, r1: Text, r2: Text)
    requires ([open] + a + [close]) + r1 == ([open] + b + [close]) + r2
    ensures a + ([close] + r1) == b + ([close] + r2)
  {
    assert ([open] + a + [close]) + r1 == [open] + (a + ([close] + r1));
    assert ([open] + b + [close]) + r2 == [open] + (b + ([close] + r2));
    SplitAt([open], [open], a + ([close] + r1), b + ([close] + r2));
  }

  lemma {:induction false} ArrayDetermines(nfc: Text -> Text, xs: seq<Js>, ys: seq<Js>, r1: Text, r2: Text)
    requires (forall x :: x in xs ==> WellFormed(x)) && (forall y :: y in ys ==> WellFormed(y))
    requires ([OPEN_ARRAY] + Items(nfc, xs) + [CLOSE_ARRAY]) + r1 == ([OPEN_ARRAY] + Items(nfc, ys) + [CLOSE_ARRAY]) + r2
    ensures MeaningItems(nfc, xs) == MeaningItems(nfc, ys) && r1 == r2
    decreases SizeItems(xs), 3
  {
    OpenBracket(OPEN_ARRAY, Items(nfc, xs), Items(nfc, ys), CLOSE_ARRAY, r1, r2);
    ItemsDetermine(nfc, xs, ys, r1, r2);
  }

  lemma {:induction false} ObjectDetermines(nfc: Text -> Text, es: seq<Entry>, fs: seq<Entry>, r1: Text, r2: Text)
    requires WellFormedEntries(es) && WellFormedEntries(fs)
    requires ([OPEN_OBJECT] + Members(nfc, Canonical(es)) + [CLOSE_OBJECT]) + r1 == ([OPEN_OBJECT] + Members(nfc, Canonical(fs)) + [CLOSE_OBJECT]) + r2
    ensures MeaningEntries(nfc, es) == MeaningEntries(nfc, fs) && r1 == r2
    decreases SizeEntries(es), 3
  {
    var a, b := Canonical(es), Canonical(fs);
    CanonicalMeaning(nfc, es);
    CanonicalMeaning(nfc, fs);
    CanonicalSize(es);
    OpenBracket(OPEN_OBJECT, Members(nfc, a), Members(nfc, b), CLOSE_OBJECT, r1, r2);
    MembersDetermine(nfc, a, b, r1, r2);
    MeaningOfSameMembers(nfc, a, b);
  }

  lemma {:induction false} ItemsDetermine(nfc: Text -> Text, xs: seq<Js>, ys: seq<Js>, r1: Text, r2: Text)
    requires (forall x :: x in xs ==> WellFormed(x)) && (forall y :: y in ys ==> WellFormed(y))
    requires Items(nfc, xs) + ([CLOSE_ARRAY] + r1) == Items(nfc, ys) + ([CLOSE_ARRAY] + r2)
    ensures MeaningItems(nfc, xs) == MeaningItems(nfc, ys) && r1 == r2
    decreases SizeItems(xs), 1, |xs|
  {
    var l, r := Items(nfc, xs) + ([CLOSE_ARRAY] + r1), Items(nfc, ys) + ([CLOSE_ARRAY] + r2);
    if xs != [] { FirstUnit(nfc, xs[0]); assert l[0] == Stringify(nfc, xs[0])[0]; } else { assert l[0] == CLOSE_ARRAY; }
    if ys != [] { FirstUnit(nfc, ys[0]); assert r[0] == Stringify(nfc, ys[0])[0]; } else { assert r[0] == CLOSE_ARRAY; }
    if xs == [] {
      assert ys == [];
      assert l[1..] == r1 && r[1..] == r2;
    } else {
      assert ys != [];
      var x := if |xs| == 1 then [CLOSE_ARRAY] + r1 else [COMMA] + (Items(nfc, xs[1..]) + ([CLOSE_ARRAY] + r1));
      var y := if |ys| == 1 then [CLOSE_ARRAY] + r2 else [COMMA] + (Items(nfc, ys[1..]) + ([CLOSE_ARRAY] + r2));
      assert l == Stringify(nfc, xs[0]) + x && r == Stringify(nfc, ys[0]) + y;
      TextDetermines(nfc, xs[0], ys[0], x, y);
      assert x[0] == y[0] && x[1..] == y[1..];
      if |xs| == 1 {
        assert |ys| == 1;
      } else {
        assert x[1..] == Items(nfc, xs[1..]) + ([CLOSE_ARRAY] + r1) && y[1..] == Items(nfc, ys[1..]) + ([CLOSE_ARRAY] + r2);
        ItemsDetermine(nfc, xs[1..], ys[1..], r1, r2);
      }
    }
  }

  /** The text after the first member: a closing brace, or a comma and the other members. */
  function AfterFirst(nfc: Text -> Text, es: seq<Entry>, rest: Text): Text
    requires es != []
  {
    if |es| == 1 then [CLOSE_OBJECT] + rest else [COMMA] + (Members(nfc, es[1..]) + ([CLOSE_OBJECT] + rest))
  }

  lemma FirstMember(nfc: Text -> Text, es: seq<Entry>, rest: Text)
    requires es != []
    ensures Members(nfc, es) + ([CLOSE_OBJECT] + rest) == Quoted(es[0].key) + ([COLON] + (Stringify(nfc, es[0].value) + AfterFirst(nfc, es, rest)))
  {
    var k, v := Quoted(es[0].key), Stringify(nfc, es[0].value);
    var tail := if |es| == 1 then [] else [COMMA] + Members(nfc, es[1..]);
    assert Members(nfc, es) == k + [COLON] + v + tail;
    assert AfterFirst(nfc, es, rest) == tail + ([CLOSE_OBJECT] + rest);
    Reassociate(k, [COLON], v, tail, [CLOSE_OBJECT] + rest);
  }

  lemma Reassociate(a: Text, b: Text, c: Text, d: Text, e: Text)
    ensures (a + b + c + d) + e == a + (b + (c + (d + e)))
  {
  }

  lemma FirstMemberUnit(nfc: Text -> Text, es: seq<Entry>, rest: Text)
    ensures es == [] ==> Members(nfc, es) + ([CLOSE_OBJECT] + rest) == [CLOSE_OBJECT] + rest
    ensures (Members(nfc, es) + ([CLOSE_OBJECT] + rest))[0] == if es == [] then CLOSE_OBJECT else QUOTE
  {
    if es != [] { FirstMember(nfc, es, rest); }
  }

  lemma {:induction false} MembersDetermine(nfc: Text -> Text, a: seq<Entry>, b: seq<Entry>, r1: Text, r2: Text)
    requires WellFormedEntries(a) && WellFormedEntries(b)
    requires Members(nfc, a) + ([CLOSE_OBJECT] + r1) == Members(nfc, b) + ([CLOSE_OBJECT] + r2)
    ensures SameMembers(nfc, a, b) && r1 == r2
    decreases SizeEntries(a), 2, |a|
  {
    FirstMemberUnit(nfc, a, r1);
    FirstMemberUnit(nfc, b, r2);
    if a == [] {
      SplitAt([CLOSE_OBJECT], [CLOSE_OBJECT], r1, r2);
    } else {
      FirstMember(nfc, a, r1);
      FirstMember(nfc, b, r2);
      var x, y := Stringify(nfc, a[0].value) + AfterFirst(nfc, a, r1), Stringify(nfc, b[0].value) + AfterFirst(nfc, b, r2);
      QuotedPrefix(a[0].key, b[0].key, [COLON] + x, [COLON] + y);
      SplitAt([COLON], [COLON], x, y);
      assert a[0] in a && b[0] in b;
      TextDetermines(nfc, a[0].value, b[0].value, AfterFirst(nfc, a, r1), AfterFirst(nfc, b, r2));
      OtherMembersDetermine(nfc, a, b, r1, r2);
    }
  }

  lemma {:induction false} OtherMembersDetermine(nfc: Text -> Text, a: seq<Entry>, b: seq<Entry>, r1: Text, r2: Text)
    requires a != [] && b != [] && WellFormedEntries(a) && WellFormedEntries(b)
    requires a[0].key == b[0].key && Meaning(nfc, a[0].value) == Meaning(nfc, b[0].value)
    requires AfterFirst(nfc, a, r1) == AfterFirst(nfc, b, r2)
    ensures SameMembers(nfc, a, b) && r1 == r2
    decreases SizeEntries(a), 1, |a|
  {
    var x, y := AfterFirst(nfc, a, r1), AfterFirst(nfc, b, r2);
    assert x[0] == y[0] && x[1..] == y[1..];
    if |a| == 1 {
      SplitAt([CLOSE_OBJECT], [CLOSE_OBJECT], r1, r2);
    } else {
      SplitAt([COMMA], [COMMA], Members(nfc, a[1..]) + ([CLOSE_OBJECT] + r1), Members(nfc, b[1..]) + ([CLOSE_OBJECT] + r2));
      SizePositive(a[0].value);
      MembersDetermine(nfc, a[1..], b[1..], r1, r2);
      forall i | 0 <= i < |a| ensures a[i].key == b[i].key && Meaning(nfc, a[i].value) == Meaning(nfc, b[i].value) {
        if i > 0 { assert a[i] == a[1..][i - 1] && b[i] == b[1..][i - 1]; }
      }
    }
  }

  /** Two values have the same cache text exactly when they mean the same JSON, whatever their key order. */
  lemma SameTextIffSameMeaning(nfc: Text -> Text, u: Js, v: Js)
    requires WellFormed(u) && WellFormed(v)
    ensures Stringify(nfc, u) == Stringify(nfc, v) <==> Meaning(nfc, u) == Meaning(nfc, v)
  {
    if Stringify(nfc, u) == Stringify(nfc, v) {
      assert Stringify(nfc, u) + [] == Stringify(nfc, v) + [];
      TextDetermines(nfc, u, v, [], []);
    }
    if Meaning(nfc, u) == Meaning(nfc, v) { SameMeaningSameText(nfc, u, v); }
  }
}
