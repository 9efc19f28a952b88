/** Text building blocks shared by the renderers: Python's `str(int)`,
    `str.join`, and one serialiser for value trees that writes either
    `json.dumps` text (default separators), the same text with bare keys, or
    Python's `repr`. */
module Text {
  import opened Values

  predicate IsDigit(c: char) {
    '0' <= c <= '9'
  }

  function DigitChar(d: nat): (c: char)
    requires d < 10
    ensures IsDigit(c) && c as int - '0' as int == d
  {
    ['0', '1', '2', '3', '4', '5', '6', '7', '8', '9'][d]
  }

  /** Decimal digits of `n`, most significant first, no leading zero. */
  function NatToString(n: nat): (r: string)
    ensures |r| > 0
    ensures forall i :: 0 <= i < |r| ==> IsDigit(r[i])
    ensures |r| > 1 ==> r[0] != '0'
  {
    if n < 10 then [DigitChar(n)] else NatToString(n / 10) + [DigitChar(n % 10)]
  }

  /** The number a string of decimal digits denotes. */
  function DigitsValue(s: string): nat
    requires forall i :: 0 <= i < |s| ==> IsDigit(s[i])
  {
    if s == [] then 0
    else
      assert IsDigit(s[|s| - 1]);
      DigitsValue(s[..|s| - 1]) * 10 + (s[|s| - 1] as int - '0' as int)
  }

  /** Reading the digits back gives the number. */
  lemma {:induction false} NatToStringRoundTrip(n: nat)
    ensures DigitsValue(NatToString(n)) == n
  {
    if n >= 10 {
      var r := NatToString(n);
      assert r[..|r| - 1] == NatToString(n / 10);
      NatToStringRoundTrip(n / 10);
    }
  }

  /** Python's `str` of an int: a minus sign for negatives, then the digits. */
  function IntToString(i: int): (r: string)
    ensures |r| > 0
    ensures i >= 0 ==> forall k :: 0 <= k < |r| ==> IsDigit(r[k])
    ensures i < 0 ==> r[0] == '-' && forall k :: 1 <= k < |r| ==> IsDigit(r[k])
  {
    if i < 0 then "-" + NatToString(-i) else NatToString(i)
  }

  /** `sep.join(parts)`. */
  function Join(parts: seq<string>, sep: string): (r: string)
    ensures parts == [] ==> r == ""
    ensures |parts| == 1 ==> r == parts[0]
    ensures |parts| > 0 ==> |r| >= |parts[0]| && r[..|parts[0]|] == parts[0]
  {
    if parts == [] then ""
    else if |parts| == 1 then parts[0]
    else parts[0] + sep + Join(parts[1..], sep)
  }

  /** How a value tree is written out. */
  datatype Notation =
    | Json       // json.dumps with its default separators ", " and ": "
    | BareKeys   // the same, but with dict keys left unquoted
    | Python     // Python's repr

  function QuoteChar(n: Notation, s: string): char {
    if n == Python && '\'' in s then '"'
    else if n == Python then '\''
    else '"'
  }

  /** A string literal. `repr` picks single quotes unless the string holds
      one; escapes are not modelled (see PlainString). */
  function Quote(n: Notation, s: string): string {
    [QuoteChar(n, s)] + s + [QuoteChar(n, s)]
  }

  /** A dict key: quoted like any string, except in the bare-key notation. */
  function KeyText(n: Notation, k: string): string {
    if n == BareKeys then k else Quote(n, k)
  }

  /** `v` written in notation `n`; lists are `[a, b]`, dicts `{k: v, ...}`. */
  function Show(v: Value, n: Notation): string
    decreases v
  {
    match v
    case Null => if n == Python then "None" else "null"
    case Bool(b) =>
      if n == Python then (if b then "True" else "False")
      else (if b then "true" else "false")
    case Int(i) => IntToString(i)
    case Str(s) => Quote(n, s)
    case List(xs) => "[" + ShowItems(xs, n) + "]"
    case Dict(es) => "{" + ShowMembers(es, n) + "}"
  }

  function ShowItems(xs: seq<Value>, n: Notation): string
    decreases xs
  {
    if xs == [] then ""
    else if |xs| == 1 then Show(xs[0], n)
    else Show(xs[0], n) + ", " + ShowItems(xs[1..], n)
  }

  function ShowMember(e: Entry, n: Notation): string
    decreases e
  {
    KeyText(n, e.0) + ": " + Show(e.1, n)
  }

  function ShowMembers(es: seq<Entry>, n: Notation): string
    decreases es
  {
    if es == [] then ""
    else if |es| == 1 then ShowMember(es[0], n)
    else ShowMember(es[0], n) + ", " + ShowMembers(es[1..], n)
  }

  /** `json.dumps(v)` with default arguments. */
  function Dumps(v: Value): string {
    Show(v, Json)
  }

  /** A string literal is the string between two equal delimiters; JSON
      always uses `"`, and `repr` picks a delimiter the string does not
      hold whenever it does not hold both kinds of quote. */
  lemma QuoteDelimits(n: Notation, s: string)
    ensures var r := Quote(n, s);
      |r| == |s| + 2 && r[1..|r| - 1] == s && r[0] == r[|r| - 1]
    ensures n != Python ==> Quote(n, s)[0] == '"'
    ensures n == Python && !('\'' in s && '"' in s) ==> Quote(n, s)[0] !in s
  {
    var r := Quote(n, s);
    assert r[1..|r| - 1] == s;
  }

  /** A key is written bare exactly in the bare-key notation, and quoted
      like any string otherwise. */
  lemma KeyTextBare(n: Notation, k: string)
    ensures KeyText(n, k) == k <==> n == BareKeys
    ensures n != BareKeys ==> KeyText(n, k) == Quote(n, k)
  {
    if n != BareKeys {
      assert |KeyText(n, k)| == |k| + 2;
    }
  }

  /** Every text is non-empty; lists are bracketed, dicts braced, and a
      string is its literal. */
  lemma ShowShape(v: Value, n: Notation)
    ensures |Show(v, n)| > 0
    ensures v.List? ==> Show(v, n)[0] == '[' && Show(v, n)[|Show(v, n)| - 1] == ']'
    ensures v.Dict? ==> Show(v, n)[0] == '{' && Show(v, n)[|Show(v, n)| - 1] == '}'
    ensures v.Str? ==> Show(v, n) == Quote(n, v.s)
  {
    match v
    case Int(i) =>
      assert |IntToString(i)| > 0;
    case _ =>
  }

  /** A dict member is its key text, then the separator `: `, then its
      value's text. */
  lemma ShowMemberSeparator(e: Entry, n: Notation)
    ensures var key := KeyText(n, e.0);
      |ShowMember(e, n)| > |key| + 2 && ShowMember(e, n)[..|key|] == key &&
      ShowMember(e, n)[|key|..|key| + 2] == ": "
  {
    ShowShape(e.1, n);
  }

  /** `json.dumps` writes None as `null`, bools in lower case, strings in
      double quotes, lists in brackets and dicts in braces. */
  lemma DumpsScalars(v: Value)
    ensures |Dumps(v)| > 0
    ensures v.Null? ==> Dumps(v) == "null"
    ensures v.Bool? ==> Dumps(v) == if v.b then "true" else "false"
    ensures v.Str? ==> Dumps(v) == "\"" + v.s + "\""
    ensures v.List? ==> Dumps(v)[0] == '[' && Dumps(v)[|Dumps(v)| - 1] == ']'
    ensures v.Dict? ==> Dumps(v)[0] == '{' && Dumps(v)[|Dumps(v)| - 1] == '}'
  {
    ShowShape(v, Json);
  }

  /** The items of a list are its elements' texts joined by `, `. */
  lemma {:induction false} ShowItemsJoin(xs: seq<Value>, n: Notation)
    ensures ShowItems(xs, n) == Join(seq(|xs|, i requires 0 <= i < |xs| => Show(xs[i], n)), ", ")
  {
    var parts := seq(|xs|, i requires 0 <= i < |xs| => Show(xs[i], n));
    if |xs| > 1 {
      ShowItemsJoin(xs[1..], n);
      assert parts[1..] == seq(|xs[1..]|, i requires 0 <= i < |xs[1..]| => Show(xs[1..][i], n));
    }
  }

  /** The members of a dict are its members' texts joined by `, `. */
  lemma {:induction false} ShowMembersJoin(es: seq<Entry>, n: Notation)
    ensures ShowMembers(es, n) == Join(seq(|es|, i requires 0 <= i < |es| => ShowMember(es[i], n)), ", ")
  {
    var parts := seq(|es|, i requires 0 <= i < |es| => ShowMember(es[i], n));
    if |es| > 1 {
      ShowMembersJoin(es[1..], n);
      assert parts[1..] == seq(|es[1..]|, i requires 0 <= i < |es[1..]| => ShowMember(es[1..][i], n));
    }
  }
}
