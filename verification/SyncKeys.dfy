module SyncKeys {
  // Names of synchronised rows: the primary key of a row in its local table, and the text key under which the outbox and the
  // server know it. A page or a reading position has a compound primary key, so its text key has to be taken apart again.
  import opened Options

  datatype Table = Children | Documents | Pages | Exercises | Annotations | Answers | Progress | Sessions

  /** Push and apply order: parents before the rows that reference them. */
  const TABLE_ORDER: seq<Table> := [Children, Documents, Pages, Exercises, Annotations, Answers, Progress, Sessions]

  lemma EveryTableOnce(t: Table)
    ensures |TABLE_ORDER| == 8
    ensures exists i :: 0 <= i < 8 && TABLE_ORDER[i] == t
    ensures forall i, j :: 0 <= i < j < 8 ==> TABLE_ORDER[i] != TABLE_ORDER[j]
  {
    var i := match t case Children => 0 case Documents => 1 case Pages => 2 case Exercises => 3
                     case Annotations => 4 case Answers => 5 case Progress => 6 case Sessions => 7;
    assert TABLE_ORDER[i] == t;
  }

  datatype PrimaryKey =
    | Id(id: string)
    | PageKey(documentId: string, pageIndex: int)
    | ProgressKey(childId: string, bookId: string)

  /** The shape of primary key a table has. */
  predicate FitsTable(t: Table, k: PrimaryKey) {
    match t
    case Pages => k.PageKey?
    case Progress => k.ProgressKey?
    case _ => k.Id?
  }

  // ---------- numbers in keys ----------

  function Digit(d: nat): char
    requires d < 10
  {
    '0' + d as char
  }

  function Decimal(n: nat): string
    decreases n
  {
    if n < 10 then [Digit(n)] else Decimal(n / 10) + [Digit(n % 10)]
  }

  function NumberText(n: int): string { if n < 0 then "-" + Decimal(-n) else Decimal(n) }

  /** The value of a string of digits, if it is one; the empty string is 0. */
  function DigitsValue(s: string): Option<int> {
    if s == "" then Some(0)
    else
      var c := s[|s| - 1];
      match DigitsValue(s[..|s| - 1])
      case Some(v) => if 48 <= c as int <= 57 then Some(10 * v + (c as int - 48)) else None
      case None => None
  }

  /** JavaScript's Number() on optionally signed digits; the empty string is 0, anything else is not an integer here. */
  function NumberOf(s: string): Option<int> {
    if s == "" then Some(0)
    else if s[0] == '-' || s[0] == '+' then
      if |s| == 1 then None
      else
        match DigitsValue(s[1..])
        case Some(v) => Some(if s[0] == '-' then -v else v)
        case None => None
    else
      match DigitsValue(s)
      case Some(v) => Some(v)
      case None => None
  }

  lemma {:induction false} DecimalReads(n: nat)
    ensures DigitsValue(Decimal(n)) == Some(n)
    ensures Decimal(n) != "" && '0' <= Decimal(n)[0] <= '9' && ':' !in Decimal(n)
    decreases n
  {
    assert DigitsValue([]) == Some(0);
    if n < 10 {
      assert [Digit(n)][..0] == [];
    } else {
      DecimalReads(n / 10);
      var s := Decimal(n);
      assert s[..|s| - 1] == Decimal(n / 10);
      assert s[0] == Decimal(n / 10)[0];
    }
  }

  lemma NumberReads(n: int)
    ensures NumberOf(NumberText(n)) == Some(n)
    ensures ':' !in NumberText(n)
  {
    DecimalReads(if n < 0 then -n else n);
  }

  // ---------- text keys ----------

  /** The key under which the outbox and the server know a row. */
  function EntityKey(k: PrimaryKey): string {
    match k
    case Id(id) => id
    case PageKey(d, i) => d + ":" + NumberText(i)
    case ProgressKey(c, d) => c + ":" + d
  }

  function IndexOf(s: string, c: char): (r: int)
    ensures -1 <= r < |s|
    ensures r >= 0 ==> s[r] == c && c !in s[..r]
    ensures r < 0 ==> c !in s
  {
    if s == "" then -1
    else if s[0] == c then 0
    else
      var r := IndexOf(s[1..], c);
      assert s == [s[0]] + s[1..];
      assert r >= 0 ==> s[..r + 1] == [s[0]] + s[1..][..r];
      if r < 0 then -1 else r + 1
  }

  function LastIndexOf(s: string, c: char): (r: int)
    ensures -1 <= r < |s|
    ensures r >= 0 ==> s[r] == c && c !in s[r + 1..]
    ensures r < 0 ==> c !in s
  {
    if s == "" then -1
    else
      var n := |s| - 1;
      assert s == s[..n] + [s[n]];
      if s[n] == c then n
      else
        var r := LastIndexOf(s[..n], c);
        assert r >= 0 ==> s[r + 1..] == s[..n][r + 1..] + [s[n]];
        r
  }

  /** The primary key a text key stands for in a table, if it can be one. */
  function PrimaryKeyFromEntityKey(t: Table, s: string): Option<PrimaryKey> {
    match t
    case Pages =>
      var i := LastIndexOf(s, ':');
      var index := NumberOf(s[i + 1..]);
      if i <= 0 || index.None? then None else Some(PageKey(s[..i], index.value))
    case Progress =>
      var i := IndexOf(s, ':');
      if i <= 0 || i == |s| - 1 then None else Some(ProgressKey(s[..i], s[i + 1..]))
    case _ => if s == "" then None else Some(Id(s))
  }

  /** What a primary key needs to survive the trip through its text key. */
  predicate WellFormed(k: PrimaryKey) {
    match k
    case Id(id) => id != ""
    case PageKey(d, i) => d != ""
    case ProgressKey(c, d) => c != "" && ':' !in c && d != ""
  }

  lemma SplitAt(s: string, i: nat, u: string, v: string)
    requires s == u + ":" + v && i < |s| && s[i] == ':'
    ensures ':' !in u && ':' !in s[..i] ==> i == |u|
    ensures ':' !in v && ':' !in s[i + 1..] ==> i == |u|
    ensures s[..|u|] == u && s[|u| + 1..] == v && s[|u|] == ':'
  {
    if i < |u| {
      assert u[i] == ':';
      assert s[i + 1..][|u| - i - 1] == ':';
    } else if i > |u| {
      assert v[i - |u| - 1] == ':';
      assert s[..i][|u|] == ':';
    }
  }

  /** A row is found again from its outbox key exactly when its primary key is well formed. */
  lemma KeyRoundTrip(t: Table, k: PrimaryKey)
    requires FitsTable(t, k)
    ensures PrimaryKeyFromEntityKey(t, EntityKey(k)) == Some(k) <==> WellFormed(k)
  {
    var s := EntityKey(k);
    match k {
      case Id(_) =>
      case PageKey(d, n) =>
        NumberReads(n);
        assert s[|d|] == ':';
        SplitAt(s, LastIndexOf(s, ':'), d, NumberText(n));
      case ProgressKey(c, d) =>
        assert s[|c|] == ':';
        var i := IndexOf(s, ':');
        SplitAt(s, i, c, d);
        if ':' in c { var j :| 0 <= j < |c| && c[j] == ':'; assert s[j] == ':'; }
    }
  }

  /** Two well-formed rows of a table never share an outbox key. */
  lemma WellFormedKeysAreDistinct(t: Table, a: PrimaryKey, b: PrimaryKey)
    requires FitsTable(t, a) && FitsTable(t, b) && WellFormed(a) && WellFormed(b) && EntityKey(a) == EntityKey(b)
    ensures a == b
  {
    KeyRoundTrip(t, a);
    KeyRoundTrip(t, b);
  }

  /** Another reading position has the same outbox key. */
  ghost predicate SharesKey(child: string, book: string) {
    exists k: PrimaryKey :: k.ProgressKey? && k != ProgressKey(child, book) && EntityKey(k) == EntityKey(ProgressKey(child, book))
  }

  lemma Regrouped(u: string, v: string, w: string)
    ensures (u + ":" + v) + ":" + w == u + ":" + (v + ":" + w)
  {
  }

  /** Split at another colon, the text is that of another reading position. */
  lemma SplitElsewhere(u: string, v: string, w: string)
    ensures SharesKey(u + ":" + v, w) && SharesKey(u, v + ":" + w)
  {
    var left, right := ProgressKey(u + ":" + v, w), ProgressKey(u, v + ":" + w);
    Regrouped(u, v, w);
    assert EntityKey(left) == EntityKey(right);
    assert |left.childId| > |right.childId|;
  }

  lemma SplitAtColon(s: string)
    requires ':' in s
    ensures var i := IndexOf(s, ':'); 0 <= i < |s| && s == s[..i] + ":" + s[i + 1..]
  {
    SplitAround(s, IndexOf(s, ':'));
  }

  lemma SplitAround(s: string, i: nat)
    requires i < |s| && s[i] == ':'
    ensures s == s[..i] + ":" + s[i + 1..]
  {
    assert s[i..] == [s[i]] + s[i + 1..];
  }

  lemma NoColonIsAlone(child: string, book: string, otherChild: string, otherBook: string)
    requires ':' !in child && ':' !in book && EntityKey(ProgressKey(otherChild, otherBook)) == EntityKey(ProgressKey(child, book))
    ensures otherChild == child && otherBook == book
  {
    var s := child + ":" + book;
    assert s[|child|] == ':' && s[..|child|] == child && s[|child| + 1..] == book;
    SplitAt(s, |child|, otherChild, otherBook);
  }

  /** Without that they can: a reading position shares its outbox key with another exactly when one of its ids has a colon in it. */
  lemma IllFormedKeysCollide(child: string, book: string)
    ensures SharesKey(child, book) <==> ':' in child || ':' in book
  {
    if ':' in child {
      SplitAtColon(child);
      SplitElsewhere(child[..IndexOf(child, ':')], child[IndexOf(child, ':') + 1..], book);
    } else if ':' in book {
      SplitAtColon(book);
      SplitElsewhere(child, book[..IndexOf(book, ':')], book[IndexOf(book, ':') + 1..]);
    } else if SharesKey(child, book) {
      var k: PrimaryKey :| k.ProgressKey? && k != ProgressKey(child, book) && EntityKey(k) == EntityKey(ProgressKey(child, book));
      NoColonIsAlone(child, book, k.childId, k.bookId);
      assert false;
    }
  }
}
