/** RTSP messages as clients write them: line ends with or without a carriage return, and every field spelled out. */
module RtspText {
  import opened Options
  import Memory
  import opened Peg
  import opened Rtsp

  /** Carriage returns only stand in front of newlines. */
  ghost predicate Clean(s: string)
  {
    forall i :: 0 <= i < |s| && s[i] == '\r' ==> i + 1 < |s| && s[i + 1] == '\n'
  }

  function WithoutCr(s: string): string
  {
    if s == [] then [] else if s[0] == '\r' then WithoutCr(s[1..]) else [s[0]] + WithoutCr(s[1..])
  }

  /** The characters of a line, not those of its end. */
  ghost predicate InLine(c: char -> bool)
  {
    !c('\r') && !c('\n')
  }

  /** A result without carriage returns is the same result but for what is left to read. */
  ghost predicate Alike<T>(bare: Parsed<T>, r: Parsed<T>)
  {
    bare.Some? == r.Some? && (r.Some? ==> bare.value.0 == r.value.0 && Left(bare.value.1, r.value.1))
  }

  ghost predicate AlikeRest(bare: Option<string>, r: Option<string>)
  {
    bare.Some? == r.Some? && (r.Some? ==> Left(bare.value, r.value))
  }

  ghost predicate Left(bare: string, s: string)
  {
    Clean(s) && bare == WithoutCr(s)
  }

  lemma CleanFrom(s: string, n: nat)
    requires Clean(s) && n <= |s|
    ensures Clean(s[n..])
  {
    forall i | 0 <= i < |s[n..]| && s[n..][i] == '\r'
      ensures i + 1 < |s[n..]| && s[n..][i + 1] == '\n'
    {
      assert s[n + i] == '\r';
    }
  }

  /** The first character without carriage returns is the first one, or a newline. */
  lemma FirstOf(s: string)
    requires Clean(s)
    ensures s == [] <==> WithoutCr(s) == []
    ensures s != [] && s[0] != '\r' ==> WithoutCr(s) == [s[0]] + WithoutCr(s[1..]) && Clean(s[1..])
    ensures s != [] && s[0] == '\r' ==>
              |s| > 1 && s[1] == '\n' && WithoutCr(s) == ['\n'] + WithoutCr(s[2..]) && Clean(s[2..])
  {
    if s != [] {
      CleanFrom(s, 1);
      if s[0] == '\r' {
        CleanFrom(s, 2);
        assert s[1..][1..] == s[2..];
      }
    }
  }

  lemma {:induction false} SkipBare(s: string)
    requires Clean(s)
    ensures Left(Skip(WithoutCr(s)), Skip(s))
  {
    FirstOf(s);
    if s != [] && Blank(s[0]) {
      SkipBare(s[1..]);
      assert WithoutCr(s)[1..] == WithoutCr(s[1..]);
    }
  }

  lemma {:induction false} SpanBare(s: string, c: char -> bool)
    requires Clean(s) && InLine(c)
    ensures var n := Span(s, c);
            && Span(WithoutCr(s), c) == n && WithoutCr(s)[..n] == s[..n] && Left(WithoutCr(s)[n..], s[n..])
  {
    FirstOf(s);
    var b := WithoutCr(s);
    if s != [] && c(s[0]) {
      SpanBare(s[1..], c);
      assert b[1..] == WithoutCr(s[1..]);
      var n := Span(s[1..], c);
      assert b[..n + 1] == [b[0]] + b[1..][..n] && s[..n + 1] == [s[0]] + s[1..][..n];
      assert b[n + 1..] == b[1..][n..] && s[n + 1..] == s[1..][n..];
    } else {
      assert Span(b, c) == 0;
      assert b[0..] == b && s[0..] == s;
    }
  }

  lemma TokenBare(s: string, c: char -> bool)
    requires Clean(s) && InLine(c)
    ensures Alike(Token(WithoutCr(s), c), Token(s, c))
  {
    SpanBare(s, c);
    SkipBare(s[Span(s, c)..]);
  }

  lemma {:induction false} PrefixBare(s: string, t: string)
    requires Clean(s) && forall i :: 0 <= i < |t| ==> t[i] != '\r' && t[i] != '\n'
    ensures t <= WithoutCr(s) <==> t <= s
    ensures t <= s ==> Left(WithoutCr(s)[|t|..], s[|t|..])
  {
    FirstOf(s);
    var b := WithoutCr(s);
    if t == [] {
      assert b[0..] == b && s[0..] == s;
    } else if s != [] && s[0] == t[0] {
      PrefixBare(s[1..], t[1..]);
      assert b[1..] == WithoutCr(s[1..]);
      PrefixNext(t, s);
      PrefixNext(t, b);
    }
  }

  lemma PrefixNext(t: string, s: string)
    requires t != [] && s != [] && s[0] == t[0]
    ensures t <= s <==> t[1..] <= s[1..]
    ensures t <= s ==> s[|t|..] == s[1..][|t[1..]|..]
  {
    assert s == [s[0]] + s[1..] && t == [t[0]] + t[1..];
  }

  lemma LiteralBare(s: string, t: string)
    requires Clean(s) && |t| > 0 && forall i :: 0 <= i < |t| ==> t[i] != '\r' && t[i] != '\n'
    ensures AlikeRest(Literal(WithoutCr(s), t), Literal(s, t))
  {
    PrefixBare(s, t);
    if t <= s {
      SkipBare(s[|t|..]);
    }
  }

  // Rule by rule

  lemma NewlineOf(rest: string)
    ensures ParseEndline(['\n'] + rest) == Some(Skip(rest))
  {
    assert "\r"[0] != (['\n'] + rest)[0];
    assert ['\n'] + rest == "\n" + rest;
    LiteralOf("\n", rest);
  }

  lemma NoEndline(s: string)
    requires s == [] || (s[0] != '\r' && s[0] != '\n')
    ensures ParseEndline(s) == None
  {
    assert "\r"[0] == '\r' && "\n"[0] == '\n';
  }

  lemma EndlineBare(s: string)
    requires Clean(s)
    ensures AlikeRest(ParseEndline(WithoutCr(s)), ParseEndline(s))
    ensures Left(SkipEndline(WithoutCr(s)), SkipEndline(s))
  {
    FirstOf(s);
    if s != [] && s[0] == '\r' {
      var rest := s[2..];
      assert s == CRLF + rest;
      EndlineOf(rest);
      NewlineOf(WithoutCr(rest));
      SkipBare(rest);
    } else if s != [] && s[0] == '\n' {
      var rest := s[1..];
      assert s == ['\n'] + rest;
      NewlineOf(rest);
      NewlineOf(WithoutCr(rest));
      SkipBare(rest);
    } else {
      NoEndline(s);
      NoEndline(WithoutCr(s));
    }
  }

  lemma ProtocolBare(s: string)
    requires Clean(s)
    ensures AlikeRest(ParseProtocol(WithoutCr(s)), ParseProtocol(s))
  {
    TokenBare(s, Letter);
    var name := Token(s, Letter);
    if name.Some? {
      LiteralBare(name.value.1, "/");
      var slash := Literal(name.value.1, "/");
      if slash.Some? {
        TokenBare(slash.value, DigitOrDot);
      }
    }
  }

  lemma HostBare(s: string)
    requires Clean(s)
    ensures Alike(ParseHost(WithoutCr(s)), ParseHost(s))
  {
    TokenBare(s, DigitOrDot);
    var ip := Token(s, DigitOrDot);
    var afterHost := if ip.Some? then ip.value.1 else s;
    LiteralBare(afterHost, ":");
    var colon := Literal(afterHost, ":");
    if colon.Some? {
      TokenBare(colon.value, Digit);
    }
  }

  lemma UriBare(s: string)
    requires Clean(s)
    ensures Alike(ParseUri(WithoutCr(s)), ParseUri(s))
  {
    TokenBare(s, Letter);
    var protocol := Token(s, Letter);
    if protocol.Some? {
      LiteralBare(protocol.value.1, "://");
      var slashes := Literal(protocol.value.1, "://");
      if slashes.Some? {
        HostBare(slashes.value);
      }
    }
  }

  lemma StreamBare(s: string)
    requires Clean(s)
    ensures Alike(ParseStream(WithoutCr(s)), ParseStream(s))
  {
    SpanBare(s, Letter);
    var n := Span(s, Letter);
    LiteralBare(s[n..], "=");
    var equals := Literal(s[n..], "=");
    if equals.Some? {
      TokenBare(equals.value, Letter);
      var kind := Token(equals.value, Letter);
      if kind.Some? {
        TokenBare(kind.value.1, DigitOrSlash);
      }
    }
  }

  lemma TargetBare(s: string)
    requires Clean(s)
    ensures Alike(ParseTarget(WithoutCr(s)), ParseTarget(s))
  {
    UriBare(s);
    StreamBare(s);
    LiteralBare(s, "/");
  }

  lemma RequestBare(s: string)
    requires Clean(s)
    ensures Alike(ParseRequest(WithoutCr(s)), ParseRequest(s))
  {
    TokenBare(s, Letter);
    var cmd := Token(s, Letter);
    if cmd.Some? {
      TargetBare(cmd.value.1);
      var target := ParseTarget(cmd.value.1);
      if target.Some? {
        ProtocolBare(target.value.1);
      }
    }
  }

  lemma ResponseBare(s: string)
    requires Clean(s)
    ensures Alike(ParseResponse(WithoutCr(s)), ParseResponse(s))
  {
    ProtocolBare(s);
    var protocol := ParseProtocol(s);
    if protocol.Some? {
      TokenBare(protocol.value, Digit);
      var code := Token(protocol.value, Digit);
      if code.Some? {
        TokenBare(code.value.1, LetterOrBlank);
      }
    }
  }

  lemma CSeqBare(s: string)
    requires Clean(s)
    ensures Alike(ParseCSeq(WithoutCr(s)), ParseCSeq(s))
  {
    LiteralBare(s, "CSeq:");
    var tag := Literal(s, "CSeq:");
    if tag.Some? {
      TokenBare(tag.value, DigitOrDot);
      var number := Token(tag.value, DigitOrDot);
      if number.Some? {
        EndlineBare(number.value.1);
      }
    }
  }

  lemma PairBare(s: string, separator: string, value: char -> bool)
    requires Clean(s) && InLine(value) && (separator == ":" || separator == "=")
    ensures Alike(ParsePair(WithoutCr(s), separator, value), ParsePair(s, separator, value))
  {
    TokenBare(s, KeyChar);
    var key := Token(s, KeyChar);
    if key.Some? {
      LiteralBare(key.value.1, separator);
      var colon := Literal(key.value.1, separator);
      if colon.Some? {
        TokenBare(colon.value, value);
        var v := Token(colon.value, value);
        EndlineBare(if v.Some? then v.value.1 else colon.value);
      }
    }
  }

  lemma {:induction false} OptionsBare(s: string, found: map<string, string>)
    requires Clean(s)
    ensures ParseOptions(WithoutCr(s), found).0 == ParseOptions(s, found).0
    ensures Left(ParseOptions(WithoutCr(s), found).1, ParseOptions(s, found).1)
    decreases |s|
  {
    PairBare(s, ":", OptionChar);
    var option := ParsePair(s, ":", OptionChar);
    if option.Some? {
      OptionsBare(option.value.1, found[option.value.0.0 := option.value.0.1]);
    }
  }

  lemma {:induction false} PayloadsBare(s: string)
    requires Clean(s)
    ensures ParsePayloads(WithoutCr(s)) == ParsePayloads(s)
    decreases |s|
  {
    PairBare(s, "=", PayloadChar);
    var payload := ParsePair(s, "=", PayloadChar);
    if payload.Some? {
      PayloadsBare(payload.value.1);
    }
  }

  /** A message whose lines end with a newline reads as it does with carriage returns in front of them. */
  lemma LineEndsDoNotMatter(s: string)
    requires Clean(s)
    ensures Parse(WithoutCr(s)) == Parse(s)
  {
    SkipBare(s);
    RequestBare(Skip(s));
    ResponseBare(Skip(s));
    var head := ParseHead(Skip(s));
    if head.Some? {
      EndlineBare(head.value.1);
      var line := ParseEndline(head.value.1);
      if line.Some? {
        CSeqBare(line.value);
        var cseq := ParseCSeq(line.value);
        if cseq.Some? {
          RestBare(cseq.value.1);
        }
      }
    }
  }

  lemma RestBare(s: string)
    requires Clean(s)
    ensures ParseOptions(WithoutCr(s), map[]).0 == ParseOptions(s, map[]).0
    ensures ParsePayloads(SkipEndline(ParseOptions(WithoutCr(s), map[]).1))
         == ParsePayloads(SkipEndline(ParseOptions(s, map[]).1))
  {
    OptionsBare(s, map[]);
    var rest := ParseOptions(s, map[]).1;
    EndlineBare(rest);
    PayloadsBare(SkipEndline(rest));
  }

  // Whole texts

  ghost predicate NoCr(s: string)
  {
    forall i :: 0 <= i < |s| ==> s[i] != '\r'
  }

  lemma CharsOf(s: string, c: char -> bool)
    requires All(s, c) && !c('\r')
    ensures NoCr(s)
  {
  }

  /** A line is clean with either end. */
  lemma LineIsClean(a: string, b: string)
    requires NoCr(a) && Clean(b)
    ensures Clean(a + (CRLF + b)) && Clean(a + ("\n" + b))
  {
    assert CRLF + b == ['\r', '\n'] + b;
  }

  /** With either end the line is the same without carriage returns. */
  lemma {:induction false} LineBare(a: string, b: string)
    requires NoCr(a)
    ensures WithoutCr(a + (CRLF + b)) == a + ("\n" + WithoutCr(b)) == WithoutCr(a + ("\n" + b))
  {
    if a == [] {
      assert a + (CRLF + b) == ['\r'] + (['\n'] + b) && a + ("\n" + b) == ['\n'] + b;
      assert (['\r'] + (['\n'] + b))[1..] == ['\n'] + b && (['\n'] + b)[1..] == b;
    } else {
      LineBare(a[1..], b);
      FirstApart(a, CRLF + b);
      FirstApart(a, "\n" + b);
      FirstApart(a, "\n" + WithoutCr(b));
    }
  }

  lemma FirstApart(a: string, b: string)
    requires a != []
    ensures a + b == [a[0]] + (a[1..] + b) && (a + b)[1..] == a[1..] + b
  {
  }

  lemma HeadNoCr(h: Head)
    requires HeadOk(h)
    ensures NoCr(HeadText(h))
  {
    match h
    case Response(code, msg) => CharsOf(Decimal(code), Digit); CharsOf(msg, LetterOrBlank);
    case Request(cmd, target) =>
      CharsOf(cmd, Letter);
      TargetNoCr(target);
  }

  lemma TargetNoCr(t: Target)
    requires TargetOk(t)
    ensures NoCr(TargetText(t))
  {
    match t
    case Uri(protocol, ip, port) =>
      CharsOf(protocol, Letter);
      CharsOf(ip, DigitOrDot);
      CharsOf(Decimal(port), Digit);
    case Stream(kind, params) => CharsOf(kind, Letter); CharsOf(params, DigitOrSlash);
  }

  ghost predicate AllNoCr(lines: seq<string>)
  {
    forall i :: 0 <= i < |lines| ==> NoCr(lines[i])
  }

  /** Lines one after the other, with carriage returns in front of the newlines where it says so. */
  function Text(lines: seq<string>, crs: seq<bool>): string
    requires |lines| == |crs|
  {
    if lines == [] then "" else lines[0] + ((if crs[0] then "\r\n" else "\n") + Text(lines[1..], crs[1..]))
  }

  function Bare(n: nat): (crs: seq<bool>)
    ensures |crs| == n && forall i :: 0 <= i < n ==> !crs[i]
  {
    seq(n, i => false)
  }

  lemma {:induction false} TextIsClean(lines: seq<string>, crs: seq<bool>)
    requires |lines| == |crs| && AllNoCr(lines)
    ensures Clean(Text(lines, crs))
    ensures WithoutCr(Text(lines, crs)) == Text(lines, Bare(|lines|))
  {
    if lines != [] {
      assert Bare(|lines|)[1..] == Bare(|lines[1..]|);
      TextIsClean(lines[1..], crs[1..]);
      LineIsClean(lines[0], Text(lines[1..], crs[1..]));
      LineBare(lines[0], Text(lines[1..], crs[1..]));
    }
  }

  /** Whichever lines end with a carriage return and a newline, and which with a newline only, they read the same. */
  lemma AnyEndsReadAlike(lines: seq<string>, crs: seq<bool>, others: seq<bool>)
    requires |lines| == |crs| == |others| && AllNoCr(lines)
    ensures Parse(Text(lines, crs)) == Parse(Text(lines, others))
  {
    TextIsClean(lines, crs);
    TextIsClean(lines, others);
    LineEndsDoNotMatter(Text(lines, crs));
    LineEndsDoNotMatter(Text(lines, others));
  }

  // Characters and numbers

  /** Which single characters are values, by their code points. */
  lemma CharactersOfValues(c: char, rest: string)
    ensures var n, s := c as int, [c] + (CRLF + rest);
            && Token(s, KeyChar).Some?
               == (n == 45 || 48 <= n <= 57 || 65 <= n <= 90 || n == 95 || 97 <= n <= 122)
            && Token(s, OptionChar).Some?
               == (n == 32 || 44 <= n <= 59 || n == 61 || 65 <= n <= 90 || n == 95 || 97 <= n <= 122)
            && Token(s, PayloadChar).Some?
               == (n == 32 || 45 <= n <= 58 || n == 61 || 65 <= n <= 93 || n == 95 || 97 <= n <= 122)
  {
    var s := [c] + (CRLF + rest);
    OneCharacter(c, rest, KeyChar);
    OneCharacter(c, rest, OptionChar);
    OneCharacter(c, rest, PayloadChar);
  }

  lemma OneCharacter(c: char, rest: string, chars: char -> bool)
    requires !chars('\r')
    ensures Token([c] + (CRLF + rest), chars) == if chars(c) then Some(([c], CRLF + rest)) else None
  {
    if chars(c) {
      TokenOf([c], CRLF + rest, chars);
      TightIsKept(CRLF + rest);
    } else {
      NoToken([c] + (CRLF + rest), chars);
    }
  }

  function Ten(i: nat): (t: nat)
    ensures t > 0
  {
    if i == 0 then 1 else 10 * Ten(i - 1)
  }

  /** The digits of a number in base ten, from the last one on, and no zero in front. */
  lemma {:induction false} DigitsOf(n: nat, i: nat)
    requires i < |Decimal(n)|
    ensures Decimal(n)[|Decimal(n)| - 1 - i] as int == 48 + n / Ten(i) % 10
    ensures n > 0 ==> Decimal(n)[0] != '0'
  {
    if n >= 10 {
      if i > 0 {
        DigitsOf(n / 10, i - 1);
        QuotientOfQuotient(n, Ten(i - 1));
      } else {
        DigitsOf(n / 10, 0);
      }
    }
  }

  lemma QuotientOfQuotient(n: nat, t: nat)
    requires t > 0
    ensures n / 10 / t == n / (10 * t)
  {
    var q, r := n / 10 / t, n / 10 % t;
    assert n == 10 * (q * t + r) + n % 10 == q * (10 * t) + (10 * r + n % 10);
    Memory.QuotientUnique(n, 10 * t, q, 10 * r + n % 10);
  }

  /** Numbers that do not fit the type of their field are read as zero. */
  lemma NumbersAreRead(n: nat, rest: string)
    ensures ParseCSeq("CSeq: " + (Decimal(n) + (CRLF + rest))) == Some((if n <= 2147483647 then n else 0, Skip(rest)))
    ensures ParseHost(":" + (Decimal(n) + (CRLF + rest))) == Some((("", if n <= 65535 then n else 0), CRLF + rest))
    ensures ParseResponse(VERSION + (" " + (Decimal(n) + (" " + ("OK" + (CRLF + rest))))))
         == Some((Response(if n <= 65535 then n else 0, "OK"), CRLF + rest))
  {
    CSeqNumber(n, rest);
    PortNumber(n, rest);
    CodeNumber(n, rest);
  }

  lemma CSeqNumber(n: nat, rest: string)
    ensures ParseCSeq("CSeq: " + (Decimal(n) + (CRLF + rest))) == Some((if n <= 2147483647 then n else 0, Skip(rest)))
  {
    var number := Decimal(n) + (CRLF + rest);
    assert Digit(number[0]);
    CSeqLabel(number);
    TokenOf(Decimal(n), CRLF + rest, DigitOrDot);
    NumberOfDecimal(n);
    EndlineOf(rest);
    TightIsKept(CRLF + rest);
  }

  lemma PortNumber(n: nat, rest: string)
    ensures ParseHost(":" + (Decimal(n) + (CRLF + rest))) == Some((("", if n <= 65535 then n else 0), CRLF + rest))
  {
    var number := Decimal(n) + (CRLF + rest);
    assert Digit(number[0]);
    NoToken(":" + number, DigitOrDot);
    LiteralOf(":", number);
    TightIsKept(number);
    TokenOf(Decimal(n), CRLF + rest, Digit);
    TightIsKept(CRLF + rest);
    NumberOfDecimal(n);
  }

  lemma CodeNumber(n: nat, rest: string)
    ensures ParseResponse(VERSION + (" " + (Decimal(n) + (" " + ("OK" + (CRLF + rest))))))
         == Some((Response(if n <= 65535 then n else 0, "OK"), CRLF + rest))
  {
    var msg := "OK" + (CRLF + rest);
    var code := Decimal(n) + (" " + msg);
    assert Digit(code[0]);
    ProtocolOf(" " + code);
    BlankSkipped(code);
    WordBlank(Decimal(n), msg, Digit);
    TokenOf("OK", CRLF + rest, LetterOrBlank);
    TightIsKept(CRLF + rest);
    NumberOfDecimal(n);
  }

  // The lines of a packet

  function Line(h: Head): string
  {
    match h
    case Request(cmd, Uri(protocol, ip, port)) =>
      cmd + " " + (protocol + "://" + ip + ":" + Decimal(port)) + " RTSP/1.0"
    case Request(cmd, Stream(kind, params)) => cmd + " " + ("streamid=" + kind + params) + " RTSP/1.0"
    case Response(code, msg) => "RTSP/1.0 " + Decimal(code) + " " + msg
  }

  ghost function LinesOfOptions(options: map<string, string>, keys: seq<string>): (lines: seq<string>)
    requires forall k :: k in keys ==> k in options
    ensures |lines| == |keys| && forall i :: 0 <= i < |keys| ==> lines[i] == keys[i] + ": " + options[keys[i]]
  {
    seq(|keys|, i requires 0 <= i < |keys| => keys[i] + ": " + options[keys[i]])
  }

  function PairText(p: (string, string)): string
  {
    if p.0 == "" then p.1 else p.0 + "=" + p.1
  }

  function LinesOfPayloads(ps: seq<(string, string)>): (lines: seq<string>)
    ensures |lines| == |ps|
    ensures forall i :: 0 <= i < |ps| ==> lines[i] == PairText(ps[i])
  {
    seq(|ps|, i requires 0 <= i < |ps| => PairText(ps[i]))
  }

  ghost function Lines(p: Packet, keys: seq<string>): seq<string>
    requires forall k :: k in keys ==> k in p.options
  {
    [Line(p.head)] + ["CSeq: " + Decimal(p.seqNumber)] + LinesOfOptions(p.options, keys)
      + ([""] + LinesOfPayloads(p.payloads))
  }

  function Returns(n: nat): (crs: seq<bool>)
    ensures |crs| == n && forall i :: 0 <= i < n ==> crs[i]
  {
    seq(n, i => true)
  }

  ghost function Full(lines: seq<string>): string
  {
    Text(lines, Returns(|lines|))
  }

  lemma FullNext(line: string, more: seq<string>)
    ensures Full([line] + more) == line + (CRLF + Full(more))
  {
    var lines := [line] + more;
    assert lines[1..] == more && Returns(|lines|)[1..] == Returns(|more|);
  }

  lemma {:induction false} FullOfOptions(options: map<string, string>, keys: seq<string>, more: seq<string>)
    requires forall k :: k in keys ==> k in options
    ensures Full(LinesOfOptions(options, keys) + more) == OptionLines(options, keys) + Full(more)
    decreases |keys|
  {
    if keys == [] {
      assert LinesOfOptions(options, keys) + more == more;
    } else {
      var line, rest := keys[0] + ": " + options[keys[0]], LinesOfOptions(options, keys[1..]) + more;
      assert LinesOfOptions(options, keys) + more == [line] + rest;
      FullNext(line, rest);
      FullOfOptions(options, keys[1..], more);
      assert OptionLines(options, keys) + Full(more) == line + (CRLF + (OptionLines(options, keys[1..]) + Full(more)));
    }
  }

  lemma {:induction false} FullOfPayloads(ps: seq<(string, string)>)
    ensures Full(LinesOfPayloads(ps)) == PayloadLines(ps)
  {
    if ps != [] {
      var line, more := PairText(ps[0]), LinesOfPayloads(ps[1..]);
      PayloadsInOrder(ps);
      FullNext(line, more);
      FullOfPayloads(ps[1..]);
      LineOfPayload(ps[0], line, Full(more));
    }
  }

  lemma PayloadsInOrder(ps: seq<(string, string)>)
    requires ps != []
    ensures LinesOfPayloads(ps) == [PairText(ps[0])] + LinesOfPayloads(ps[1..])
  {
  }

  lemma LineOfPayload(p: (string, string), line: string, more: string)
    requires line == PairText(p)
    ensures line + (CRLF + more) == PayloadLine(p) + more
  {
  }

  /** What is printed are the lines of the packet, each with a carriage return and a newline. */
  lemma PrintedLines(p: Packet, keys: seq<string>)
    requires forall k :: k in keys ==> k in p.options
    ensures Printed(p, keys) == Full(Lines(p, keys))
  {
    var payloads, options := LinesOfPayloads(p.payloads), LinesOfOptions(p.options, keys);
    var cseq := "CSeq: " + Decimal(p.seqNumber);
    FullOfPayloads(p.payloads);
    FullNext("", payloads);
    FullOfOptions(p.options, keys, [""] + payloads);
    LinesInOrder(Line(p.head), cseq, options, [""] + payloads);
    PrintedInOrder(p, keys, cseq, Full([""] + payloads));
  }

  lemma LinesInOrder(head: string, cseq: string, options: seq<string>, more: seq<string>)
    ensures Full([head] + [cseq] + options + more) == head + (CRLF + (cseq + (CRLF + Full(options + more))))
  {
    FullNext(cseq, options + more);
    FullNext(head, [cseq] + (options + more));
    assert [head] + [cseq] + options + more == [head] + ([cseq] + (options + more));
  }

  lemma PrintedInOrder(p: Packet, keys: seq<string>, cseq: string, end: string)
    requires forall k :: k in keys ==> k in p.options
    requires cseq == "CSeq: " + Decimal(p.seqNumber) && end == "" + (CRLF + PayloadLines(p.payloads))
    ensures Printed(p, keys) == Line(p.head) + (CRLF + (cseq + (CRLF + (OptionLines(p.options, keys) + end))))
  {
    var more := CRLF + (OptionLines(p.options, keys) + end);
    assert end == CRLF + PayloadLines(p.payloads);
    Moved("CSeq: ", Decimal(p.seqNumber), more);
    PrintedText(p, keys, HeadText(p.head) + (CRLF + ("CSeq: " + (Decimal(p.seqNumber) + more))));
  }

  lemma Moved(a: string, b: string, c: string)
    ensures a + (b + c) == a + b + c
  {
  }

  // Packets with any line ends

  lemma LinesNoCr(p: Packet, keys: seq<string>)
    requires PacketOk(p) && Lists(keys, p.options)
    ensures AllNoCr(Lines(p, keys))
  {
    var options, payloads := LinesOfOptions(p.options, keys), LinesOfPayloads(p.payloads);
    HeadNoCr(p.head);
    CharsOf(Decimal(p.seqNumber), Digit);
    forall i | 0 <= i < |options|
      ensures NoCr(options[i])
    {
      assert PairOk(keys[i], p.options[keys[i]], OptionChar);
      CharsOf(keys[i], KeyChar);
      CharsOf(p.options[keys[i]], OptionChar);
    }
    forall i | 0 <= i < |payloads|
      ensures NoCr(payloads[i])
    {
      var q := p.payloads[i];
      assert PayloadOk(q);
      CharsOf(q.0, KeyChar);
      CharsOf(q.1, PayloadChar);
    }
  }

  lemma LikeFull(lines: seq<string>, crs: seq<bool>)
    requires |lines| == |crs| && AllNoCr(lines)
    ensures Parse(Text(lines, crs)) == Parse(Full(lines))
  {
    AnyEndsReadAlike(lines, crs, Returns(|lines|));
  }

  /** Whichever ends its lines have, a packet whose payloads have keys is read as it is. */
  lemma AnyEndsAreRead(p: Packet, keys: seq<string>, crs: seq<bool>)
    requires PacketOk(p) && Lists(keys, p.options) && forall i :: 0 <= i < |p.payloads| ==> p.payloads[i].0 != ""
    requires |crs| == |Lines(p, keys)|
    ensures Parse(Text(Lines(p, keys), crs)) == Some(p)
  {
    LinesNoCr(p, keys);
    LikeFull(Lines(p, keys), crs);
    PrintedLines(p, keys);
    RoundTrip(p, keys);
  }

  /** The target that is only a slash, which is never printed. */
  lemma SlashIsRead(cmd: string, rest: string)
    requires |cmd| > 0 && All(cmd, Letter)
    ensures ParseHead(cmd + (" / RTSP/1.0" + (CRLF + rest))) == Some((Request(cmd, Uri("", "", 0)), CRLF + rest))
  {
    var version := VERSION + (CRLF + rest);
    var target := "/" + (" " + version);
    assert " / RTSP/1.0" + (CRLF + rest) == " " + target;
    WordBlank(cmd, target, Letter);
    SlashTarget(version);
    ProtocolOf(CRLF + rest);
    TightIsKept(CRLF + rest);
  }

  lemma SlashTarget(version: string)
    requires Tight(version)
    ensures ParseTarget("/" + (" " + version)) == Some((Uri("", "", 0), version))
  {
    NoToken("/" + (" " + version), Letter);
    assert Span("/" + (" " + version), Letter) == 0;
    LiteralOf("/", " " + version);
    BlankSkipped(version);
  }

  /** The request line of the target that is only a slash, in front of what follows the line of another packet. */
  lemma SlashMessage(cmd: string, p: Packet, keys: seq<string>, cseq: string)
    requires |cmd| > 0 && All(cmd, Letter)
    requires PacketOk(p) && Lists(keys, p.options) && forall i :: 0 <= i < |p.payloads| ==> p.payloads[i].0 != ""
    requires Printed(p, keys) == HeadText(p.head) + (CRLF + cseq)
    ensures Parse(cmd + (" / RTSP/1.0" + (CRLF + cseq))) == Some(p.(head := Request(cmd, Uri("", "", 0))))
  {
    var pays := PayloadLines(p.payloads);
    var end := CRLF + pays;
    var lines := OptionLines(p.options, keys) + end;
    var s := cmd + (" / RTSP/1.0" + (CRLF + cseq));
    PrintedText(p, keys, HeadText(p.head) + (CRLF + ("CSeq: " + (Decimal(p.seqNumber) + (CRLF + lines)))));
    SameEnd(HeadText(p.head), cseq, "CSeq: " + (Decimal(p.seqNumber) + (CRLF + lines)));
    SlashLine(cmd, cseq, s);
    CSeqIsRead(p, keys, end, lines, cseq);
    OptionsAreRead(p.options, keys, pays, lines, end);
    PayloadsBegin(p.payloads, pays, end);
    ParseSteps(s, Request(cmd, Uri("", "", 0)), CRLF + cseq, cseq, p.seqNumber, lines, p.options, end, pays);
    PayloadsKept(p.payloads);
  }

  lemma SlashLine(cmd: string, cseq: string, s: string)
    requires |cmd| > 0 && All(cmd, Letter) && Tight(cseq) && s == cmd + (" / RTSP/1.0" + (CRLF + cseq))
    ensures Skip(s) == s && ParseHead(s) == Some((Request(cmd, Uri("", "", 0)), CRLF + cseq))
    ensures ParseEndline(CRLF + cseq) == Some(cseq)
  {
    assert Letter(s[0]);
    TightIsKept(s);
    SlashIsRead(cmd, cseq);
    EndlineOf(cseq);
    TightIsKept(cseq);
  }

  lemma SameEnd(a: string, b: string, c: string)
    requires a + (CRLF + b) == a + (CRLF + c)
    ensures b == c
  {
    assert (a + (CRLF + b))[|a| + 2..] == b && (a + (CRLF + c))[|a| + 2..] == c;
  }

  lemma PayloadsBegin(ps: seq<(string, string)>, pays: string, end: string)
    requires (forall i :: 0 <= i < |ps| ==> PayloadOk(ps[i])) && pays == PayloadLines(ps) && end == CRLF + pays
    ensures SkipEndline(end) == pays
  {
    EndlineOf(pays);
    PayloadsAreTight(ps);
    TightIsKept(pays);
  }

  /** The same with the target that is only a slash in the first line. */
  lemma SlashWithAnyEnds(cmd: string, p: Packet, keys: seq<string>, crs: seq<bool>)
    requires |cmd| > 0 && All(cmd, Letter)
    requires PacketOk(p) && Lists(keys, p.options) && forall i :: 0 <= i < |p.payloads| ==> p.payloads[i].0 != ""
    requires |crs| == |Lines(p, keys)|
    ensures Parse(Text(Lines(p, keys)[0 := cmd + " / RTSP/1.0"], crs))
         == Some(p.(head := Request(cmd, Uri("", "", 0))))
  {
    var lines, line := Lines(p, keys), cmd + " / RTSP/1.0";
    SlashLines(cmd, p, keys, lines, line);
    LikeFull(lines[0 := line], crs);
    SlashFull(cmd, p, keys, lines[1..], line, lines[0 := line]);
  }

  lemma SlashLines(cmd: string, p: Packet, keys: seq<string>, lines: seq<string>, line: string)
    requires PacketOk(p) && Lists(keys, p.options) && All(cmd, Letter)
    requires lines == Lines(p, keys) && line == cmd + " / RTSP/1.0"
    ensures lines != [] && lines == [Line(p.head)] + lines[1..] && lines[0 := line] == [line] + lines[1..]
    ensures AllNoCr(lines[0 := line])
  {
    LinesNoCr(p, keys);
    CharsOf(cmd, Letter);
    FirstLine(p, keys);
    Replaced(lines, line);
  }

  lemma FirstLine(p: Packet, keys: seq<string>)
    requires forall k :: k in keys ==> k in p.options
    ensures Lines(p, keys) != [] && Lines(p, keys)[0] == Line(p.head)
  {
  }

  lemma Replaced(lines: seq<string>, line: string)
    requires lines != [] && AllNoCr(lines) && NoCr(line)
    ensures lines == [lines[0]] + lines[1..] && lines[0 := line] == [line] + lines[1..] && AllNoCr(lines[0 := line])
  {
  }

  lemma SlashFull(cmd: string, p: Packet, keys: seq<string>, more: seq<string>, line: string,
                  lines: seq<string>)
    requires |cmd| > 0 && All(cmd, Letter) && line == cmd + " / RTSP/1.0"
    requires PacketOk(p) && Lists(keys, p.options) && forall i :: 0 <= i < |p.payloads| ==> p.payloads[i].0 != ""
    requires Lines(p, keys) == [Line(p.head)] + more && lines == [line] + more
    ensures Parse(Full(lines)) == Some(p.(head := Request(cmd, Uri("", "", 0))))
  {
    PrintedLines(p, keys);
    FullNext(Line(p.head), more);
    SlashMessage(cmd, p, keys, Full(more));
    FullNext(line, more);
    Moved(cmd, " / RTSP/1.0", CRLF + Full(more));
  }
}
