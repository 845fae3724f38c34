/**
 * The few pieces of Java's standard library that the dispatch code relies on,
 * with their exact edge cases: UTF-16 strings, `String.indexOf`,
 * `String.contains`, `String.split` on a one-character separator,
 * `Integer.parseInt`, and the runtime exceptions the code lets escape.
 */
module Java {

  /** A Java `char` is one UTF-16 code unit. */
  type JChar = bv16

  /** A Java `String` is a sequence of UTF-16 code units. */
  type JString = seq<JChar>

  /** A literal written in Dafny's `string` syntax, as the Java compiler would store it. */
  function Lit(s: string): (r: JString)
    ensures |r| == |s|
  {
    seq(|s|, i requires 0 <= i < |s| => ((s[i] as int) % 0x1_0000) as bv16)
  }

  datatype Option<T> = None | Some(value: T)

  /** The exceptions that escape from the modelled code. */
  datatype Exception =
    | IndexOutOfBounds          // charAt, substring or an array index out of range
    | NullPointer               // a dereference of a missing entity
    | NumberFormat              // Integer.parseInt on a malformed number
    | IncorrectResultSize       // a derived single-result query that matches several rows
    | IllegalArgument(message: JString)
    | Runtime(message: JString)
    | IO                        // an IOException (end of stream, broken connection)
    | NoSuchElement             // Optional.orElseThrow on an empty Optional

  datatype Result<T> = Ok(value: T) | Throw(error: Exception)

  const MinInt: int := -0x8000_0000
  const MaxInt: int := 0x7FFF_FFFF

  /** `stream().filter(keep).toList()`: the elements that pass, in their original order. */
  function Filter<T(!new)>(s: seq<T>, keep: T -> bool): (r: seq<T>)
    ensures |r| <= |s|
    ensures forall i | 0 <= i < |r| :: r[i] in s && keep(r[i])
    ensures forall x :: x in r <==> x in s && keep(x)
  {
    if |s| == 0 then [] else (if keep(s[0]) then [s[0]] else []) + Filter(s[1..], keep)
  }

  lemma {:induction false} FilterNone<T(!new)>(s: seq<T>, keep: T -> bool)
    requires forall i | 0 <= i < |s| :: !keep(s[i])
    ensures Filter(s, keep) == []
  {
    if |s| > 0 {
      assert forall i | 0 <= i < |s[1..]| :: s[1..][i] == s[i + 1];
      FilterNone(s[1..], keep);
    }
  }

  /** When only the element at `k` passes, the filtered list is that element alone. */
  lemma {:induction false} FilterSingle<T(!new)>(s: seq<T>, keep: T -> bool, k: int)
    requires 0 <= k < |s| && keep(s[k])
    requires forall i | 0 <= i < |s| && i != k :: !keep(s[i])
    ensures Filter(s, keep) == [s[k]]
  {
    assert forall i | 0 <= i < |s[1..]| :: s[1..][i] == s[i + 1];
    if k == 0 {
      FilterNone(s[1..], keep);
    } else {
      FilterSingle(s[1..], keep, k - 1);
    }
  }

  /** Two distinct positions that pass leave at least two elements after filtering. */
  lemma {:induction false} MatchingTwo<T(!new)>(s: seq<T>, keep: T -> bool, i: int, j: int)
    requires 0 <= i < |s| && 0 <= j < |s| && i != j && keep(s[i]) && keep(s[j])
    ensures |Filter(s, keep)| >= 2
  {
    assert forall n | 0 <= n < |s[1..]| :: s[1..][n] == s[n + 1];
    if i == 0 {
      assert s[j - 1 + 1] == s[j];
      assert s[j] in Filter(s[1..], keep);
    } else if j == 0 {
      assert s[i] in Filter(s[1..], keep);
    } else {
      MatchingTwo(s[1..], keep, i - 1, j - 1);
    }
  }

  /**
   * A derived single-result repository query returning `Optional`: empty
   * when no row passes, the row when exactly one does, and an
   * IncorrectResultSize error when several do.
   */
  function FindOne<T(!new)>(rows: seq<T>, keep: T -> bool): (r: Result<Option<T>>)
    ensures r == Ok(None) <==> forall i | 0 <= i < |rows| :: !keep(rows[i])
    ensures r.Ok? && r.value.Some? ==>
      r.value.value in rows && keep(r.value.value) &&
      forall i | 0 <= i < |rows| && keep(rows[i]) :: rows[i] == r.value.value
    ensures r.Throw? ==> r.error == IncorrectResultSize
  {
    var matching := Filter(rows, keep);
    if |matching| == 0 then Ok(None)
    else if |matching| == 1 then
      assert matching[0] in rows;
      Ok(Some(matching[0]))
    else Throw(IncorrectResultSize)
  }

  /** Two distinct rows that pass make the single-result query fail. */
  lemma FindOneSeveral<T(!new)>(rows: seq<T>, keep: T -> bool, i: int, j: int)
    requires 0 <= i < |rows| && 0 <= j < |rows| && i != j && keep(rows[i]) && keep(rows[j])
    ensures FindOne(rows, keep) == Throw(IncorrectResultSize)
  {
    MatchingTwo(rows, keep, i, j);
  }

  /** Replacing a row by one that passes the same filter keeps the number of rows that pass. */
  lemma {:induction false} FilterReplace<T(!new)>(rows: seq<T>, keep: T -> bool, k: int, v: T)
    requires 0 <= k < |rows| && keep(rows[k]) == keep(v)
    ensures |Filter(rows[k := v], keep)| == |Filter(rows, keep)|
  {
    if k == 0 {
      assert rows[k := v][1..] == rows[1..];
    } else {
      assert rows[k := v][1..] == rows[1..][k - 1 := v];
      FilterReplace(rows[1..], keep, k - 1, v);
    }
  }

  /** Once a single-result query succeeds on a row, it finds the row's replacement just as well. */
  lemma FindOneReplace<T(!new)>(rows: seq<T>, keep: T -> bool, k: int, v: T)
    requires 0 <= k < |rows| && keep(rows[k]) && keep(v)
    requires FindOne(rows, keep).Ok?
    ensures FindOne(rows[k := v], keep) == Ok(Some(v))
  {
    FilterReplace(rows, keep, k, v);
    assert rows[k := v][k] == v;
  }

  /** `stream().filter(keep).findFirst()`, as an index: the first position that passes, or -1. */
  function FirstIndex<T>(s: seq<T>, keep: T -> bool): (k: int)
    ensures -1 <= k < |s|
    ensures k == -1 <==> forall i | 0 <= i < |s| :: !keep(s[i])
    ensures 0 <= k ==> keep(s[k]) && forall j | 0 <= j < k :: !keep(s[j])
  {
    if |s| == 0 then -1
    else if keep(s[0]) then 0
    else
      var k := FirstIndex(s[1..], keep);
      if k < 0 then -1 else k + 1
  }

  /** `findFirst` on a non-empty list: the head, or one past what the rest gives. */
  lemma FirstIndexCons<T>(s: seq<T>, keep: T -> bool)
    requires |s| > 0
    ensures FirstIndex(s, keep) ==
      if keep(s[0]) then 0 else if FirstIndex(s[1..], keep) < 0 then -1 else FirstIndex(s[1..], keep) + 1
  {
  }

  /** An element that satisfies `keep` with none before it is the one `findFirst` finds. */
  lemma FirstIndexIs<T>(s: seq<T>, keep: T -> bool, k: int)
    requires 0 <= k < |s| && keep(s[k]) && forall j | 0 <= j < k :: !keep(s[j])
    ensures FirstIndex(s, keep) == k
  {
  }

  /** The first element of a filtered list is the element `findFirst` finds. */
  lemma {:induction false} FilterHead<T(!new)>(s: seq<T>, keep: T -> bool)
    requires |Filter(s, keep)| > 0
    ensures 0 <= FirstIndex(s, keep) && Filter(s, keep)[0] == s[FirstIndex(s, keep)]
  {
    if !keep(s[0]) {
      assert Filter(s, keep) == Filter(s[1..], keep);
      FilterHead(s[1..], keep);
    }
  }

  /** `s.indexOf(c)`: the first index holding `c`, or -1. */
  function IndexOf(s: JString, c: JChar): (r: int)
    ensures -1 <= r < |s|
    ensures r == -1 <==> c !in s
    ensures 0 <= r ==> s[r] == c && c !in s[..r]
  {
    if |s| == 0 then -1
    else if s[0] == c then 0
    else
      var k := IndexOf(s[1..], c);
      assert s[1..][..if k < 0 then 0 else k] == s[1..if k < 0 then 1 else k + 1];
      if k < 0 then -1 else k + 1
  }

  /** `s.contains(p)`: `p` occurs in `s` as a contiguous block. */
  predicate Contains(s: JString, p: JString)
    ensures p == [] ==> Contains(s, p)
    ensures |p| > |s| ==> !Contains(s, p)
    ensures p == s ==> Contains(s, p)
  {
    assert p == [] ==> OccursAt(s, p, 0);
    assert p == s ==> OccursAt(s, p, 0);
    exists i | 0 <= i <= |s| - |p| :: OccursAt(s, p, i)
  }

  predicate OccursAt(s: JString, p: JString, i: int) {
    0 <= i <= |s| - |p| && s[i..i + |p|] == p
  }

  /** The pieces of `s` between occurrences of `c`, empty pieces included. */
  function SplitAll(s: JString, c: JChar): (r: seq<JString>)
    ensures |r| >= 1
    ensures forall p | p in r :: c !in p
    decreases |s|
  {
    var k := IndexOf(s, c);
    if k < 0 then [s] else [s[..k]] + SplitAll(s[k + 1..], c)
  }

  /** The trailing empty pieces that Java's `split` discards. */
  function DropTrailingEmpty(parts: seq<JString>): (r: seq<JString>)
    ensures |r| <= |parts| && r == parts[..|r|]
    ensures |r| > 0 ==> r[|r| - 1] != []
    ensures forall i | |r| <= i < |parts| :: parts[i] == []
  {
    if |parts| > 0 && parts[|parts| - 1] == [] then DropTrailingEmpty(parts[..|parts| - 1])
    else parts
  }

  /**
   * `s.split(String.valueOf(c))`: when `c` does not occur the result is `[s]`
   * (even for the empty string); otherwise the pieces with the trailing empty
   * ones removed.
   */
  function Split(s: JString, c: JChar): seq<JString> {
    if c !in s then [s] else DropTrailingEmpty(SplitAll(s, c))
  }

  /** `first` followed by `sep + f` for every `f` in `rest`, as a StringBuilder loop produces it. */
  function Join(first: JString, rest: seq<JString>, sep: JChar): JString {
    if |rest| == 0 then first else Join(first, rest[..|rest| - 1], sep) + [sep] + rest[|rest| - 1]
  }

  /** Number of occurrences of `c` in `s`. */
  function Count(s: JString, c: JChar): nat {
    if |s| == 0 then 0 else (if s[0] == c then 1 else 0) + Count(s[1..], c)
  }

  lemma {:induction false} CountAppend(a: JString, b: JString, c: JChar)
    ensures Count(a + b, c) == Count(a, c) + Count(b, c)
  {
    if |a| > 0 {
      assert (a + b)[1..] == a[1..] + b;
      CountAppend(a[1..], b, c);
    } else {
      assert a + b == b;
    }
  }

  lemma {:induction false} CountZero(s: JString, c: JChar)
    ensures Count(s, c) == 0 <==> c !in s
  {
    if |s| > 0 {
      CountZero(s[1..], c);
      assert s == [s[0]] + s[1..];
    }
  }

  lemma IndexOfAt(s: JString, c: JChar, k: int)
    requires 0 <= k < |s| && s[k] == c && c !in s[..k]
    ensures IndexOf(s, c) == k
  {
    assert s[..k + 1][k] == c;
  }

  /** A string without the separator is its own single piece. */
  lemma SplitAllNone(s: JString, c: JChar)
    requires c !in s
    ensures SplitAll(s, c) == [s]
  {
  }

  /** Splitting at one separator splits the two sides independently. */
  lemma {:induction false} SplitAllAround(a: JString, b: JString, c: JChar)
    ensures SplitAll(a + [c] + b, c) == SplitAll(a, c) + SplitAll(b, c)
    decreases |a|
  {
    var k := IndexOf(a, c);
    if k < 0 {
      SplitAllAroundFree(a, b, c);
    } else {
      var tail := a[k + 1..];
      SplitAllAround(tail, b, c);
      SplitAllAroundFirst(a, b, c, k);
      Associative([a[..k]], SplitAll(tail, c), SplitAll(b, c));
    }
  }

  lemma SplitAllAroundFree(a: JString, b: JString, c: JChar)
    requires c !in a
    ensures SplitAll(a + [c] + b, c) == [a] + SplitAll(b, c)
    ensures SplitAll(a, c) == [a]
  {
    var s := a + [c] + b;
    assert s[..|a|] == a && s[|a|] == c;
    SplitAllFirst(s, c, |a|);
    assert s[|a| + 1..] == b;
  }

  /** Two pieces free of `c`, each followed by `c`, come off the front of the split. */
  lemma SplitAllTwoFree(a: JString, b: JString, t: JString, c: JChar)
    requires c !in a && c !in b
    ensures c in a + [c] + (b + [c] + t)
    ensures SplitAll(a + [c] + (b + [c] + t), c) == [a, b] + SplitAll(t, c)
  {
    var g := b + [c] + t;
    assert (a + [c] + g)[|a|] == c;
    SplitAllAroundFree(a, g, c);
    SplitAllAroundFree(b, t, c);
    assert [a] + ([b] + SplitAll(t, c)) == [a, b] + SplitAll(t, c);
  }

  lemma SplitAllAroundFirst(a: JString, b: JString, c: JChar, k: int)
    requires 0 <= k < |a| && a[k] == c && c !in a[..k]
    ensures SplitAll(a + [c] + b, c) == [a[..k]] + SplitAll(a[k + 1..] + [c] + b, c)
    ensures SplitAll(a, c) == [a[..k]] + SplitAll(a[k + 1..], c)
  {
    var s := a + [c] + b;
    assert s[..k] == a[..k] && s[k] == c;
    SplitAllFirst(s, c, k);
    assert s[k + 1..] == a[k + 1..] + [c] + b;
    SplitAllFirst(a, c, k);
  }

  /** The first piece ends at the first separator. */
  lemma SplitAllFirst(s: JString, c: JChar, k: int)
    requires 0 <= k < |s| && s[k] == c && c !in s[..k]
    ensures SplitAll(s, c) == [s[..k]] + SplitAll(s[k + 1..], c)
  {
    IndexOfAt(s, c, k);
  }

  lemma Associative<T>(x: seq<T>, y: seq<T>, z: seq<T>)
    ensures x + (y + z) == x + y + z
  {
  }

  /** One more piece than separators. */
  lemma {:induction false} SplitAllLength(s: JString, c: JChar)
    ensures |SplitAll(s, c)| == Count(s, c) + 1
    decreases |s|
  {
    var k := IndexOf(s, c);
    if k < 0 {
      CountZero(s, c);
    } else {
      assert s == s[..k] + [c] + s[k + 1..];
      CountAppend(s[..k] + [c], s[k + 1..], c);
      CountAppend(s[..k], [c], c);
      CountZero(s[..k], c);
      assert Count([c], c) == 1 by { assert [c][1..] == []; }
      SplitAllLength(s[k + 1..], c);
    }
  }

  /** Splitting a joined sequence of separator-free pieces gives the pieces back. */
  lemma {:induction false} SplitAllJoin(first: JString, rest: seq<JString>, c: JChar)
    requires c !in first
    requires forall i | 0 <= i < |rest| :: c !in rest[i]
    ensures SplitAll(Join(first, rest, c), c) == [first] + rest
  {
    if |rest| > 0 {
      var n := |rest| - 1;
      SplitAllJoin(first, rest[..n], c);
      SplitAllJoinLast(first, rest, c);
      ConsSnoc(first, rest);
    }
  }

  lemma ConsSnoc<T>(x: T, s: seq<T>)
    requires |s| > 0
    ensures [x] + s == [x] + s[..|s| - 1] + [s[|s| - 1]]
  {
    assert s == s[..|s| - 1] + [s[|s| - 1]];
  }

  /** Joining one more separator-free piece adds exactly that piece to the split. */
  lemma SplitAllJoinLast(first: JString, rest: seq<JString>, c: JChar)
    requires |rest| > 0 && c !in rest[|rest| - 1]
    ensures SplitAll(Join(first, rest, c), c) == SplitAll(Join(first, rest[..|rest| - 1], c), c) + [rest[|rest| - 1]]
  {
    SplitAllAround(Join(first, rest[..|rest| - 1], c), rest[|rest| - 1], c);
    SplitAllNone(rest[|rest| - 1], c);
  }

  /** `Join` puts the separator between pieces and nowhere else. */
  lemma {:induction false} JoinFree(first: JString, rest: seq<JString>, c: JChar, d: JChar)
    requires d !in first
    requires forall i | 0 <= i < |rest| :: d !in rest[i]
    requires c != d
    ensures d !in Join(first, rest, c)
  {
    if |rest| > 0 {
      JoinFree(first, rest[..|rest| - 1], c, d);
    }
  }

  /** A non-empty second piece survives the dropping of trailing empty pieces. */
  lemma SplitKeepsSecond(s: JString, c: JChar)
    requires c in s && |SplitAll(s, c)| >= 2 && SplitAll(s, c)[1] != []
    ensures |Split(s, c)| >= 2 && Split(s, c)[1] == SplitAll(s, c)[1]
  {
  }

  /**
   * Java's `split` gives back the joined pieces exactly, provided no piece
   * holds the separator and the last piece is not empty (or there is only one).
   */
  lemma JavaSplitJoin(first: JString, rest: seq<JString>, c: JChar)
    requires c !in first
    requires forall i | 0 <= i < |rest| :: c !in rest[i]
    requires |rest| > 0 ==> rest[|rest| - 1] != []
    ensures Split(Join(first, rest, c), c) == [first] + rest
  {
    SplitAllJoin(first, rest, c);
    if |rest| > 0 {
      var n := |rest| - 1;
      assert Join(first, rest, c)[|Join(first, rest[..n], c)|] == c;
    }
  }

  /** The ASCII digits '0' to '9', in order. */
  const DigitChars: JString := [0x30, 0x31, 0x32, 0x33, 0x34, 0x35, 0x36, 0x37, 0x38, 0x39]

  /** The value of the ASCII digit `d`, or -1 when `d` is not one. */
  function DigitValue(d: JChar): (r: int)
    ensures -1 <= r <= 9
  {
    if 0x30 <= d <= 0x39 then (d - 0x30) as int else -1
  }

  predicate AllDigits(s: JString) {
    forall i | 0 <= i < |s| :: DigitValue(s[i]) >= 0
  }

  /** The decimal value of a string of ASCII digits, read left to right. */
  function DigitsValue(s: JString): (r: nat)
    requires AllDigits(s)
  {
    if |s| == 0 then 0 else DigitsValue(s[..|s| - 1]) * 10 + DigitValue(s[|s| - 1])
  }

  /**
   * `Integer.parseInt(s)`: an optional sign, at least one digit, and a value
   * inside the 32-bit range; anything else is a NumberFormatException.
   * (Only ASCII digits are modelled.)
   */
  function ParseInt(s: JString): (r: Option<int>)
    ensures r.Some? ==> MinInt <= r.value <= MaxInt
  {
    var neg := |s| > 0 && s[0] == 0x2D;
    var digits := if |s| > 0 && (s[0] == 0x2D || s[0] == 0x2B) then s[1..] else s;
    if |digits| == 0 || !AllDigits(digits) then None
    else
      var v: int := if neg then -(DigitsValue(digits) as int) else DigitsValue(digits);
      if MinInt <= v <= MaxInt then Some(v) else None
  }

  /** `Integer.toString(n)` for a non-negative `n`. */
  function Decimal(n: nat): (r: JString)
    ensures |r| > 0 && AllDigits(r)
  {
    var d := [DigitChars[n % 10]];
    DigitOf(n % 10);
    if n < 10 then d else Decimal(n / 10) + d
  }

  /** `Integer.toString(n)`. */
  function FormatInt(n: int): JString {
    if n < 0 then [0x2D] + Decimal(-n) else Decimal(n)
  }

  lemma {:induction false} DecimalValue(n: nat)
    ensures DigitsValue(Decimal(n)) == n
  {
    var d: JString := [DigitChars[n % 10]];
    DigitOf(n % 10);
    if n >= 10 {
      DecimalValue(n / 10);
      var s := Decimal(n / 10) + d;
      assert s[..|s| - 1] == Decimal(n / 10);
    }
  }

  /** The character written for a digit value reads back as that value. */
  lemma DigitOf(v: int)
    requires 0 <= v < 10
    ensures DigitValue(DigitChars[v]) == v
  {
    if v < 5 {
      assert v == 0 || v == 1 || v == 2 || v == 3 || v == 4;
    } else {
      assert v == 5 || v == 6 || v == 7 || v == 8 || v == 9;
    }
  }

  /** Parsing what `Integer.toString` wrote gives the number back. */
  lemma ParseFormatInt(n: int)
    requires MinInt <= n <= MaxInt
    ensures ParseInt(FormatInt(n)) == Some(n)
  {
    if n < 0 {
      ParseFormatNegative(n);
    } else {
      ParseFormatNatural(n);
    }
  }

  lemma ParseFormatNegative(n: int)
    requires MinInt <= n < 0
    ensures ParseInt(FormatInt(n)) == Some(n)
  {
    var d := Decimal(-n);
    assert FormatInt(n) == [0x2D] + d;
    assert DigitsValue(d) == -n by {
      DecimalValue(-n);
    }
    ParseMinus(d);
  }

  /** A minus sign followed by digits parses as the negated value, when that fits. */
  lemma ParseMinus(d: JString)
    requires |d| > 0 && AllDigits(d) && DigitsValue(d) <= -MinInt
    ensures ParseInt([0x2D] + d) == Some(-(DigitsValue(d) as int))
  {
    var s := [0x2D] + d;
    assert s[0] == 0x2D && s[1..] == d;
  }

  lemma ParseFormatNatural(n: int)
    requires 0 <= n <= MaxInt
    ensures ParseInt(FormatInt(n)) == Some(n)
  {
    var s := FormatInt(n);
    DecimalValue(n);
    assert s[0] != 0x2D && s[0] != 0x2B by {
      assert DigitValue(s[0]) >= 0;
    }
  }
}
