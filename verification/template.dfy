/** Placeholder templates of the query builder. A template names its
    positional arguments `[0]`, `[1]`, ... and identifier arguments `{0}`, ...;
    the UNION ALL derived table is the template
    `([0] UNION ALL [1] UNION ALL ... [n-1]) {n}`. The scanner `Slots` reads
    the placeholder numbers back out of a template, independently of how the
    template was assembled. */
module Template {

  predicate IsDigit(c: char) {
    '0' <= c <= '9'
  }

  predicate AllDigits(s: string) {
    forall i :: 0 <= i < |s| ==> IsDigit(s[i])
  }

  function Digit(d: nat): (c: char)
    requires d < 10
    ensures IsDigit(c) && c as int - '0' as int == d
  {
    (d + '0' as int) as char
  }

  /** PHP's decimal rendering of a non-negative integer. */
  function NatToString(n: nat): (s: string)
    ensures |s| > 0 && AllDigits(s)
  {
    if n < 10 then [Digit(n)] else NatToString(n / 10) + [Digit(n % 10)]
  }

  /** The number a string of decimal digits denotes. */
  function ParseNat(s: string): nat
    requires AllDigits(s)
  {
    if |s| == 0 then 0
    else ParseNat(s[..|s| - 1]) * 10 + (s[|s| - 1] as int - '0' as int)
  }

  /** Decimal rendering is read back exactly. */
  lemma {:induction false} ParseNatToString(n: nat)
    ensures ParseNat(NatToString(n)) == n
  {
    if n >= 10 {
      ParseNatToString(n / 10);
      var s := NatToString(n);
      assert s[..|s| - 1] == NatToString(n / 10);
    }
  }

  /** PHP's `join(sep, parts)`. */
  function Join(sep: string, parts: seq<string>): string {
    if |parts| == 0 then ""
    else if |parts| == 1 then parts[0]
    else parts[0] + sep + Join(sep, parts[1..])
  }

  function Placeholder(i: nat): string {
    "[" + NatToString(i) + "]"
  }

  /** The placeholders `[j]`, ..., `[n-1]`. */
  function Placeholders(j: nat, n: nat): (r: seq<string>)
    requires j <= n
    ensures |r| == n - j
    ensures forall k :: 0 <= k < |r| ==> r[k] == Placeholder(j + k)
  {
    seq(n - j, k requires 0 <= k < n - j => Placeholder(j + k))
  }

  const UnionAll: string := " UNION ALL "

  /** The template of a UNION ALL over `n` sub-queries, aliased by argument `n`. */
  function UnionTemplate(n: nat): string {
    "(" + Join(UnionAll, Placeholders(0, n)) + ") {" + NatToString(n) + "}"
  }

  /** The length of the run of digits that `s` starts with. */
  function DigitRun(s: string): (k: nat)
    ensures k <= |s| && AllDigits(s[..k])
    ensures k < |s| ==> !IsDigit(s[k])
  {
    if |s| == 0 || !IsDigit(s[0]) then 0
    else
      var k := DigitRun(s[1..]);
      assert s[..k + 1] == [s[0]] + s[1..][..k];
      1 + k
  }

  /** The numbers of the placeholders `open digits close` in `t`, in order. */
  function Slots(open: char, close: char, t: string): seq<nat> {
    if |t| == 0 then []
    else if t[0] == open then
      var k := DigitRun(t[1..]);
      if 0 < k && 1 + k < |t| && t[1 + k] == close then
        assert t[1..1 + k] == t[1..][..k];
        [ParseNat(t[1..1 + k])] + Slots(open, close, t[2 + k..])
      else Slots(open, close, t[1..])
    else Slots(open, close, t[1..])
  }

  /** The numbers `j`, ..., `n-1`. */
  function Range(j: nat, n: nat): (r: seq<nat>)
    requires j <= n
    ensures |r| == n - j
    ensures forall k :: 0 <= k < |r| ==> r[k] == j + k
  {
    seq(n - j, k requires 0 <= k < n - j => j + k)
  }

  lemma {:induction false} SlotsSkip(open: char, close: char, p: string, rest: string)
    requires open !in p
    ensures Slots(open, close, p + rest) == Slots(open, close, rest)
  {
    if |p| > 0 {
      assert (p + rest)[0] == p[0] && p[0] in p;
      var t := p + rest;
      assert t[1..] == p[1..] + rest;
      assert t[0] != open;
      assert Slots(open, close, t) == Slots(open, close, t[1..]);
      SlotsSkip(open, close, p[1..], rest);
    } else {
      assert p + rest == rest;
    }
  }

  lemma DigitRunOf(d: string, rest: string)
    requires AllDigits(d)
    requires |rest| > 0 && !IsDigit(rest[0])
    ensures DigitRun(d + rest) == |d|
  {
    if |d| > 0 {
      assert (d + rest)[1..] == d[1..] + rest;
      DigitRunOf(d[1..], rest);
    }
  }

  /** A placeholder in front of `rest` is read as exactly its number. */
  lemma SlotsOfPlaceholder(open: char, close: char, i: nat, rest: string)
    requires !IsDigit(close)
    ensures Slots(open, close, [open] + NatToString(i) + [close] + rest)
            == [i] + Slots(open, close, rest)
  {
    var d := NatToString(i);
    var t := [open] + d + [close] + rest;
    assert t[1..] == d + ([close] + rest);
    DigitRunOf(d, [close] + rest);
    assert t[1..1 + |d|] == d;
    assert t[2 + |d|..] == rest;
    ParseNatToString(i);
  }

  lemma RangeStep(j: nat, n: nat)
    requires j < n
    ensures Range(j, n) == [j] + Range(j + 1, n)
  {
  }

  lemma JoinStep(sep: string, j: nat, n: nat)
    requires j + 1 < n
    ensures Join(sep, Placeholders(j, n))
            == ['['] + NatToString(j) + [']'] + (sep + Join(sep, Placeholders(j + 1, n)))
  {
    var ps := Placeholders(j, n);
    assert ps[1..] == Placeholders(j + 1, n);
  }

  /** A placeholder followed by a separator without `[` contributes exactly its number. */
  lemma SlotsOfPlaceholderSep(j: nat, sep: string, tail: string)
    requires '[' !in sep
    ensures Slots('[', ']', ['['] + NatToString(j) + [']'] + (sep + tail)) == [j] + Slots('[', ']', tail)
  {
    SlotsOfPlaceholder('[', ']', j, sep + tail);
    SlotsSkip('[', ']', sep, tail);
  }

  lemma RangeCons(j: nat, n: nat, rest: seq<nat>)
    requires j < n
    ensures [j] + (Range(j + 1, n) + rest) == Range(j, n) + rest
  {
    RangeStep(j, n);
  }

  /** Joined placeholders `[j]`..`[n-1]` are read back as j..n-1, whatever
      the separator, as long as it holds no `[`. */
  lemma {:induction false} SlotsOfJoin(sep: string, j: nat, n: nat, rest: string)
    requires j < n && '[' !in sep
    ensures Slots('[', ']', Join(sep, Placeholders(j, n)) + rest)
            == Range(j, n) + Slots('[', ']', rest)
    decreases n - j
  {
    if n - j == 1 {
      assert Placeholders(j, n) == [Placeholder(j)];
      assert Join(sep, Placeholders(j, n)) + rest == ['['] + NatToString(j) + [']'] + rest;
      SlotsOfPlaceholder('[', ']', j, rest);
    } else {
      var tail := Join(sep, Placeholders(j + 1, n)) + rest;
      JoinStep(sep, j, n);
      assert Join(sep, Placeholders(j, n)) + rest == ['['] + NatToString(j) + [']'] + (sep + tail);
      SlotsOfPlaceholderSep(j, sep, tail);
      SlotsOfJoin(sep, j + 1, n, rest);
      RangeCons(j, n, Slots('[', ']', rest));
    }
  }

  lemma UnionTemplateBrackets(n: nat)
    ensures Slots('[', ']', UnionTemplate(n)) == Range(0, n)
  {
    var body := Join(UnionAll, Placeholders(0, n));
    var tail := ") {" + NatToString(n) + "}";
    assert '[' !in tail by {
      var d := NatToString(n);
      assert forall m :: 0 <= m < |d| ==> d[m] != '[';
    }
    assert UnionTemplate(n) == "(" + (body + tail);
    SlotsSkip('[', ']', "(", body + tail);
    SlotsSkip('[', ']', tail, "");
    assert tail + "" == tail;
    if n > 0 {
      SlotsOfJoin(UnionAll, 0, n, tail);
      assert Range(0, n) + [] == Range(0, n);
    } else {
      assert body + tail == tail;
    }
  }

  lemma UnionTemplateBrace(n: nat)
    ensures Slots('{', '}', UnionTemplate(n)) == [n]
  {
    var body := Join(UnionAll, Placeholders(0, n));
    var d := NatToString(n);
    assert '{' !in body by {
      var ps := Placeholders(0, n);
      forall k | 0 <= k < |ps| ensures '{' !in ps[k] {
        var dk := NatToString(k);
        assert ps[k] == "[" + dk + "]";
        assert forall m :: 0 <= m < |dk| ==> dk[m] != '{';
      }
      JoinWithout('{', UnionAll, ps);
    }
    var head := "(" + body + ") ";
    assert '{' !in head;
    assert UnionTemplate(n) == head + (['{'] + d + ['}'] + "");
    SlotsSkip('{', '}', head, ['{'] + d + ['}'] + "");
    SlotsOfPlaceholder('{', '}', n, "");
  }

  /** The UNION ALL template has the positional slots 0..n-1 in order, and one
      identifier slot, numbered n. */
  lemma UnionTemplateSlots(n: nat)
    ensures Slots('[', ']', UnionTemplate(n)) == Range(0, n)
    ensures Slots('{', '}', UnionTemplate(n)) == [n]
  {
    UnionTemplateBrackets(n);
    UnionTemplateBrace(n);
  }

  /** A character absent from every part and from the separator is absent
      from their join. */
  lemma {:induction false} JoinWithout(c: char, sep: string, parts: seq<string>)
    requires c !in sep
    requires forall k :: 0 <= k < |parts| ==> c !in parts[k]
    ensures c !in Join(sep, parts)
  {
    if |parts| > 1 {
      JoinWithout(c, sep, parts[1..]);
    }
  }
}
