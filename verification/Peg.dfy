/** The pieces of a parsing expression grammar that skips blanks after every token and literal. */
module Peg {
  import opened Options

  type Parsed<T> = Option<(T, string)>

  predicate Blank(c: char)
  {
    c == ' ' || c == '\t'
  }

  function Skip(s: string): (r: string)
    ensures |r| <= |s|
  {
    if s != [] && Blank(s[0]) then Skip(s[1..]) else s
  }

  /** How many characters of s, from the start on, are in the class. */
  function Span(s: string, c: char -> bool): (n: nat)
    ensures n <= |s| && All(s[..n], c) && (n < |s| ==> !c(s[n]))
  {
    if s != [] && c(s[0]) then 1 + Span(s[1..], c) else 0
  }

  predicate All(s: string, c: char -> bool)
  {
    forall i :: 0 <= i < |s| ==> c(s[i])
  }

  function Token(s: string, c: char -> bool): (r: Parsed<string>)
    ensures r.Some? ==> |r.value.1| < |s|
  {
    var n := Span(s, c);
    if n == 0 then None else Some((s[..n], Skip(s[n..])))
  }

  function Literal(s: string, t: string): (r: Option<string>)
    requires |t| > 0
    ensures r.Some? ==> |r.value| < |s|
  {
    if t <= s then Some(Skip(s[|t|..])) else None
  }

  /** s does not begin with a blank, so nothing is skipped before it. */
  predicate Tight(s: string)
  {
    s == [] || !Blank(s[0])
  }

  /** Blanks are only skipped up to something that is none. */
  lemma {:induction false} SkipOf(a: string, b: string)
    requires b != [] && Tight(b)
    ensures Skip(a + b) == Skip(a) + b && Tight(Skip(a) + b)
  {
    if a == [] {
      assert a + b == b;
    } else {
      assert (a + b)[1..] == a[1..] + b;
      SkipOf(a[1..], b);
    }
  }

  lemma {:induction false} SkipIsSuffix(s: string)
    ensures Skip(s) == s[|s| - |Skip(s)|..] && Tight(Skip(s)) && (|Skip(s)| == |s| ==> Tight(s))
  {
    if s != [] && Blank(s[0]) {
      SkipIsSuffix(s[1..]);
    }
  }

  lemma {:induction false} SkipStaysIn(s: string, c: char -> bool)
    requires All(s, c)
    ensures All(Skip(s), c) && Tight(Skip(s))
  {
    if s != [] && Blank(s[0]) {
      SkipStaysIn(s[1..], c);
    }
  }

  predicate Stops(s: string, c: char -> bool)
  {
    s == [] || !c(s[0])
  }

  lemma {:induction false} SpanOf(a: string, b: string, c: char -> bool)
    requires All(a, c) && Stops(b, c)
    ensures Span(a + b, c) == |a|
  {
    if a == [] {
      assert a + b == b;
    } else {
      assert (a + b)[1..] == a[1..] + b;
      SpanOf(a[1..], b, c);
    }
  }

  /** A token in front of something that does not continue it. */
  lemma TokenOf(a: string, b: string, c: char -> bool)
    requires |a| > 0 && All(a, c) && Stops(b, c)
    ensures Token(a + b, c) == Some((a, Skip(b)))
  {
    SpanOf(a, b, c);
    assert (a + b)[..|a|] == a && (a + b)[|a|..] == b;
  }

  /** A token, a literal that ends it, and more. */
  lemma WordThen(a: string, sep: string, b: string, c: char -> bool)
    requires |a| > 0 && All(a, c) && |sep| > 0 && !c(sep[0]) && !Blank(sep[0]) && Tight(b)
    ensures Token(a + (sep + b), c) == Some((a, sep + b)) && Literal(sep + b, sep) == Some(b)
  {
    TokenOf(a, sep + b, c);
    LiteralOf(sep, b);
  }

  /** A token, a blank that is skipped, and more. */
  lemma WordBlank(a: string, b: string, c: char -> bool)
    requires |a| > 0 && All(a, c) && !c(' ') && Tight(b)
    ensures Token(a + (" " + b), c) == Some((a, b))
  {
    TokenOf(a, " " + b, c);
    assert (" " + b)[1..] == b;
  }

  lemma NoToken(s: string, c: char -> bool)
    requires Stops(s, c)
    ensures Token(s, c) == None
  {
  }

  lemma LiteralOf(t: string, b: string)
    requires |t| > 0
    ensures Literal(t + b, t) == Some(Skip(b))
  {
    assert (t + b)[|t|..] == b;
  }

  // Numbers

  predicate Digit(c: char)
  {
    '0' <= c <= '9'
  }

  function DigitOf(n: nat): char
    requires n < 10
  {
    '0' + n as char
  }

  function Decimal(n: nat): (s: string)
    ensures |s| > 0 && All(s, Digit)
  {
    if n < 10 then [DigitOf(n)] else Decimal(n / 10) + [DigitOf(n % 10)]
  }

  /** The number in the leading digits. */
  function Number(s: string): nat
  {
    Value(s[..Span(s, Digit)])
  }

  function Value(s: string): nat
    requires All(s, Digit)
  {
    if s == [] then 0 else Value(s[..|s| - 1]) * 10 + (s[|s| - 1] as int - '0' as int)
  }

  lemma {:induction false} ValueOfDecimal(n: nat)
    ensures Value(Decimal(n)) == n
  {
    if n >= 10 {
      ValueOfDecimal(n / 10);
      assert Decimal(n)[..|Decimal(n)| - 1] == Decimal(n / 10);
    }
  }

  lemma NumberOfDecimal(n: nat)
    ensures Number(Decimal(n)) == n
  {
    SpanOf(Decimal(n), [], Digit);
    assert Decimal(n) + [] == Decimal(n);
    assert Decimal(n)[..|Decimal(n)|] == Decimal(n);
    ValueOfDecimal(n);
  }
}
