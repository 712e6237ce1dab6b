/** RTSP messages: the grammar that reads them and the printer that writes them. */
module Rtsp {
  import opened Options
  import opened Peg

  datatype Target = Uri(protocol: string, ip: string, port: nat) | Stream(kind: string, params: string)

  datatype Head = Request(cmd: string, target: Target) | Response(code: nat, msg: string)

  datatype Packet = Packet(head: Head, seqNumber: nat, options: map<string, string>, payloads: seq<(string, string)>)

  const MAX_INT := 0x7FFF_FFFF
  const MAX_SHORT := 0xFFFF
  const CRLF := "\r\n"

  // Alphabets

  predicate Letter(c: char) { 'a' <= c <= 'z' || 'A' <= c <= 'Z' }
  predicate LetterOrBlank(c: char) { Letter(c) || c == ' ' }
  predicate DigitOrDot(c: char) { Digit(c) || c == '.' }
  predicate DigitOrSlash(c: char) { Digit(c) || c == '/' }
  predicate KeyChar(c: char) { Letter(c) || Digit(c) || c == '-' || c == '_' }
  predicate OptionChar(c: char) { KeyChar(c) || c in "./;=, :" }
  predicate PayloadChar(c: char) { KeyChar(c) || c in "./[]\\: =" }

  /** A number that does not fit reads as zero. */
  function Fit(n: nat, max: nat): nat
  {
    if n <= max then n else 0
  }

  // The grammar

  function ParseEndline(s: string): (r: Option<string>)
    ensures r.Some? ==> |r.value| < |s|
  {
    var cr := Literal(s, "\r");
    if cr.Some? && Literal(cr.value, "\n").Some? then Literal(cr.value, "\n")
    else if cr.Some? then None
    else Literal(s, "\n")
  }

  function SkipEndline(s: string): (r: string)
    ensures |r| <= |s|
  {
    var e := ParseEndline(s);
    if e.Some? then e.value else s
  }

  function ParseProtocol(s: string): Option<string>
  {
    var name := Token(s, Letter);
    if name.None? then None
    else
      var slash := Literal(name.value.1, "/");
      if slash.None? then None
      else
        var version := Token(slash.value, DigitOrDot);
        if version.None? then None else Some(version.value.1)
  }

  /** The address, which may be missing, and the port. */
  function ParseHost(s: string): Parsed<(string, nat)>
  {
    var ip := Token(s, DigitOrDot);
    var host, afterHost := if ip.Some? then ip.value.0 else "", if ip.Some? then ip.value.1 else s;
    var colon := Literal(afterHost, ":");
    if colon.None? then None
    else
      var port := Token(colon.value, Digit);
      if port.None? then None else Some(((host, Fit(Number(port.value.0), MAX_SHORT)), port.value.1))
  }

  function ParseUri(s: string): Parsed<Target>
  {
    var protocol := Token(s, Letter);
    if protocol.None? then None
    else
      var slashes := Literal(protocol.value.1, "://");
      if slashes.None? then None
      else
        var host := ParseHost(slashes.value);
        if host.None? then None
        else Some((Uri(protocol.value.0, host.value.0.0, host.value.0.1), host.value.1))
  }

  function ParseStream(s: string): Parsed<Target>
  {
    var n := Span(s, Letter);
    var equals := Literal(s[n..], "=");
    if n == 0 || equals.None? then None
    else
      var kind := Token(equals.value, Letter);
      if kind.None? then None
      else
        var params := Token(kind.value.1, DigitOrSlash);
        if params.None? then None else Some((Stream(kind.value.0, params.value.0), params.value.1))
  }

  function ParseTarget(s: string): Parsed<Target>
  {
    var uri := ParseUri(s);
    if uri.Some? then uri
    else
      var stream := ParseStream(s);
      if stream.Some? then stream
      else
        var slash := Literal(s, "/");
        if slash.Some? then Some((Uri("", "", 0), slash.value)) else None
  }

  function ParseRequest(s: string): Parsed<Head>
  {
    var cmd := Token(s, Letter);
    if cmd.None? then None
    else
      var target := ParseTarget(cmd.value.1);
      if target.None? then None
      else
        var protocol := ParseProtocol(target.value.1);
        if protocol.None? then None else Some((Request(cmd.value.0, target.value.0), protocol.value))
  }

  function ParseResponse(s: string): Parsed<Head>
  {
    var protocol := ParseProtocol(s);
    if protocol.None? then None
    else
      var code := Token(protocol.value, Digit);
      if code.None? then None
      else
        var msg := Token(code.value.1, LetterOrBlank);
        if msg.None? then None
        else Some((Response(Fit(Number(code.value.0), MAX_SHORT), msg.value.0), msg.value.1))
  }

  function ParseHead(s: string): Parsed<Head>
  {
    var request := ParseRequest(s);
    if request.Some? then request else ParseResponse(s)
  }

  function ParseCSeq(s: string): Parsed<nat>
  {
    var tag := Literal(s, "CSeq:");
    if tag.None? then None
    else
      var number := Token(tag.value, DigitOrDot);
      if number.None? then None
      else Some((Fit(Number(number.value.0), MAX_INT), SkipEndline(number.value.1)))
  }

  /** A key, a separator and a value that may be empty. */
  function ParsePair(s: string, separator: string, value: char -> bool): (r: Parsed<(string, string)>)
    requires |separator| > 0
    ensures r.Some? ==> |r.value.1| < |s|
  {
    var key := Token(s, KeyChar);
    if key.None? then None
    else
      var colon := Literal(key.value.1, separator);
      if colon.None? then None
      else
        var v := Token(colon.value, value);
        if v.Some? then Some(((key.value.0, v.value.0), SkipEndline(v.value.1)))
        else Some(((key.value.0, ""), SkipEndline(colon.value)))
  }

  /** All options there are; a later one of the same key replaces an earlier one. */
  function ParseOptions(s: string, found: map<string, string>): (map<string, string>, string)
    decreases |s|
  {
    var option := ParsePair(s, ":", OptionChar);
    if option.None? then (found, s)
    else ParseOptions(option.value.1, found[option.value.0.0 := option.value.0.1])
  }

  function ParsePayloads(s: string): seq<(string, string)>
    decreases |s|
  {
    var payload := ParsePair(s, "=", PayloadChar);
    if payload.None? then [] else [payload.value.0] + ParsePayloads(payload.value.1)
  }

  /** What is left behind the payloads is ignored, whatever it is. */
  function Parse(message: string): Option<Packet>
  {
    var head := ParseHead(Skip(message));
    if head.None? then None
    else
      var line := ParseEndline(head.value.1);
      if line.None? then None
      else
        var cseq := ParseCSeq(line.value);
        if cseq.None? then None
        else
          var (options, rest) := ParseOptions(cseq.value.1, map[]);
          Some(Packet(head.value.0, cseq.value.0, options, ParsePayloads(SkipEndline(rest))))
  }

  // The printer

  function TargetText(t: Target): string
  {
    match t
    case Uri(protocol, ip, port) => protocol + "://" + ip + ":" + Decimal(port)
    case Stream(kind, params) => "streamid=" + kind + params
  }

  function HeadText(h: Head): string
  {
    match h
    case Request(cmd, target) => cmd + " " + TargetText(target) + " RTSP/1.0"
    case Response(code, msg) => "RTSP/1.0 " + Decimal(code) + " " + msg
  }

  /** The lines of the options with the given keys. */
  function OptionLines(options: map<string, string>, keys: seq<string>): string
    requires forall k :: k in keys ==> k in options
  {
    if keys == [] then []
    else keys[0] + ": " + options[keys[0]] + CRLF + OptionLines(options, keys[1..])
  }

  function PayloadLine(p: (string, string)): string
  {
    if p.0 == "" then p.1 + CRLF else p.0 + "=" + p.1 + CRLF
  }

  function PayloadLines(ps: seq<(string, string)>): string
  {
    if ps == [] then [] else PayloadLine(ps[0]) + PayloadLines(ps[1..])
  }

  /** keys are those of the options, each once, in the order in which a std::map goes through them. */
  ghost predicate Lists(keys: seq<string>, options: map<string, string>)
  {
    && (forall k :: k in keys <==> k in options)
    && (forall i, j :: 0 <= i < j < |keys| ==> keys[i] != keys[j])
  }

  function Printed(p: Packet, keys: seq<string>): string
    requires forall k :: k in keys ==> k in p.options
  {
    HeadText(p.head) + CRLF + "CSeq: " + Decimal(p.seqNumber) + CRLF + OptionLines(p.options, keys) + CRLF
      + PayloadLines(p.payloads)
  }

  method ToString(p: Packet, keys: seq<string>) returns (text: string)
    requires Lists(keys, p.options)
    ensures text == Printed(p, keys)
  {
    text := HeadText(p.head) + CRLF + "CSeq: " + Decimal(p.seqNumber);
    text := AppendOptions(text, p.options, keys);
    text := AppendPayloads(text + CRLF, p.payloads);
  }

  // The line end goes in front of each option, and one more behind them all.
  method AppendOptions(start: string, options: map<string, string>, keys: seq<string>) returns (text: string)
    requires forall k :: k in keys ==> k in options
    ensures text == start + CRLF + OptionLines(options, keys)
  {
    text := start;
    for i := 0 to |keys|
      invariant text + CRLF == start + CRLF + OptionLines(options, keys[..i])
    {
      OptionLinesMore(options, keys, i);
      text := AppendOption(text, keys[i], options[keys[i]], start + CRLF + OptionLines(options, keys[..i]));
    }
    assert keys[..|keys|] == keys;
    text := text + CRLF;
  }

  method AppendOption(text: string, key: string, value: string, ghost lines: string) returns (r: string)
    requires text + CRLF == lines
    ensures r + CRLF == lines + (key + ": " + value + CRLF)
  {
    r := text + CRLF + key + ": " + value;
  }

  method AppendPayloads(start: string, ps: seq<(string, string)>) returns (text: string)
    ensures text == start + PayloadLines(ps)
  {
    text := start;
    for i := 0 to |ps|
      invariant text == start + PayloadLines(ps[..i])
    {
      PayloadLinesMore(ps, i);
      var line := WritePayload(ps[i]);
      text := text + line;
    }
    assert ps[..|ps|] == ps;
  }

  method WritePayload(p: (string, string)) returns (line: string)
    ensures line == PayloadLine(p)
  {
    if p.0 == "" {
      line := p.1 + CRLF;
    } else {
      line := p.0 + "=" + p.1 + CRLF;
    }
  }

  lemma {:induction false} OptionLinesMore(options: map<string, string>, keys: seq<string>, i: nat)
    requires i < |keys| && forall k :: k in keys ==> k in options
    ensures OptionLines(options, keys[..i + 1])
             == OptionLines(options, keys[..i]) + (keys[i] + ": " + options[keys[i]] + CRLF)
  {
    if i > 0 {
      OptionLinesMore(options, keys[1..], i - 1);
      assert keys[..i + 1][1..] == keys[1..][..i] && keys[..i][1..] == keys[1..][..i - 1];
    }
  }

  lemma {:induction false} PayloadLinesMore(ps: seq<(string, string)>, i: nat)
    requires i < |ps|
    ensures PayloadLines(ps[..i + 1]) == PayloadLines(ps[..i]) + PayloadLine(ps[i])
  {
    if i > 0 {
      PayloadLinesMore(ps[1..], i - 1);
      assert ps[..i + 1][1..] == ps[1..][..i] && ps[..i][1..] == ps[1..][..i - 1];
    }
  }

  // Reading what was printed

  ghost predicate TargetOk(t: Target)
  {
    match t
    case Uri(protocol, ip, port) => |protocol| > 0 && All(protocol, Letter) && All(ip, DigitOrDot) && port <= MAX_SHORT
    case Stream(kind, params) => |kind| > 0 && All(kind, Letter) && |params| > 0 && All(params, DigitOrSlash)
  }

  ghost predicate HeadOk(h: Head)
  {
    match h
    case Request(cmd, target) => |cmd| > 0 && All(cmd, Letter) && TargetOk(target)
    case Response(code, msg) => code <= MAX_SHORT && |msg| > 0 && All(msg, LetterOrBlank) && Tight(msg)
  }

  /** A key and a value in their alphabets, the value without leading blanks. */
  ghost predicate PairOk(key: string, value: string, chars: char -> bool)
  {
    |key| > 0 && All(key, KeyChar) && All(value, chars) && Tight(value)
  }

  lemma EndlineOf(rest: string)
    ensures ParseEndline(CRLF + rest) == Some(Skip(rest)) && SkipEndline(CRLF + rest) == Skip(rest)
  {
    var s := CRLF + rest;
    assert s == "\r" + ("\n" + rest);
    LiteralOf("\r", "\n" + rest);
    LiteralOf("\n", rest);
  }

  lemma BlankSkipped(rest: string)
    requires Tight(rest)
    ensures Skip(" " + rest) == rest && Skip(rest) == rest
  {
    assert (" " + rest)[1..] == rest;
  }

  lemma HostOf(ip: string, port: string)
    requires All(ip, DigitOrDot) && Tight(port)
    ensures Tight(ip + (":" + port)) && Literal(":" + port, ":") == Some(port)
    ensures Token(ip + (":" + port), DigitOrDot) == if ip == "" then None else Some((ip, ":" + port))
  {
    LiteralOf(":", port);
    if ip == "" {
      NoToken(":" + port, DigitOrDot);
      assert ip + (":" + port) == ":" + port;
    } else {
      assert DigitOrDot(ip[0]);
      WordThen(ip, ":", port, DigitOrDot);
    }
  }

  lemma UriOf(t: Target, rest: string)
    requires t.Uri? && TargetOk(t) && Stops(rest, Digit)
    ensures ParseUri(TargetText(t) + rest) == Some((t, Skip(rest)))
  {
    var port := Decimal(t.port) + rest;
    var host := t.ip + (":" + port);
    var s := t.protocol + ("://" + host);
    assert Tight(port) by {
      assert Digit(port[0]);
    }
    HostOf(t.ip, port);
    WordThen(t.protocol, "://", host, Letter);
    assert Token(port, Digit) == Some((Decimal(t.port), Skip(rest))) by {
      TokenOf(Decimal(t.port), rest, Digit);
    }
    NumberOfDecimal(t.port);
    assert t.ip == "" ==> host == ":" + port;
    UriText(t, rest, s);
    UriSteps(s, t, "://" + host, host, ":" + port, port, Skip(rest));
  }

  /** The rule for an address, one step after the other. */
  lemma UriSteps(s: string, t: Target, slashes: string, host: string, colon: string, port: string, rest: string)
    requires t.Uri? && t.port <= MAX_SHORT && Number(Decimal(t.port)) == t.port
    requires Token(s, Letter) == Some((t.protocol, slashes)) && Literal(slashes, "://") == Some(host)
    requires Token(host, DigitOrDot) == if t.ip == "" then None else Some((t.ip, colon))
    requires t.ip == "" ==> host == colon
    requires Literal(colon, ":") == Some(port) && Token(port, Digit) == Some((Decimal(t.port), rest))
    ensures ParseUri(s) == Some((t, rest))
  {
  }

  lemma UriText(t: Target, rest: string, s: string)
    requires t.Uri? && s == t.protocol + ("://" + (t.ip + (":" + (Decimal(t.port) + rest))))
    ensures TargetText(t) + rest == s
  {
  }

  lemma StreamOf(t: Target, rest: string)
    requires t.Stream? && TargetOk(t) && Stops(rest, DigitOrSlash)
    ensures ParseUri(TargetText(t) + rest) == None && ParseStream(TargetText(t) + rest) == Some((t, Skip(rest)))
  {
    var params := t.params + rest;
    var kind := t.kind + params;
    assert Tight(kind) && Tight(params) by {
      assert Letter(kind[0]) && DigitOrSlash(params[0]);
    }
    StreamText(t, rest, STREAM_ID + ("=" + kind));
    NotAUri(kind);
    StreamId(kind);
    TokenOf(t.kind, params, Letter);
    TokenOf(t.params, rest, DigitOrSlash);
  }

  lemma StreamText(t: Target, rest: string, s: string)
    requires t.Stream? && s == STREAM_ID + ("=" + (t.kind + (t.params + rest)))
    ensures TargetText(t) + rest == s
  {
  }

  const STREAM_ID := "streamid"

  lemma NotAUri(kind: string)
    requires Tight(kind)
    ensures ParseUri(STREAM_ID + ("=" + kind)) == None
  {
    WordThen(STREAM_ID, "=", kind, Letter);
    assert ("=" + kind)[0] != "://"[0];
  }

  lemma StreamId(kind: string)
    requires Tight(kind)
    ensures var s := STREAM_ID + ("=" + kind);
            var n := Span(s, Letter);
            n > 0 && Literal(s[n..], "=") == Some(kind)
  {
    SpanOf(STREAM_ID, "=" + kind, Letter);
    assert (STREAM_ID + ("=" + kind))[|STREAM_ID|..] == "=" + kind;
    LiteralOf("=", kind);
  }

  lemma TargetOf(t: Target, rest: string)
    requires TargetOk(t) && Stops(rest, DigitOrSlash)
    ensures ParseTarget(TargetText(t) + rest) == Some((t, Skip(rest)))
  {
    if t.Uri? {
      UriOf(t, rest);
    } else {
      StreamOf(t, rest);
    }
  }

  lemma RequestOf(h: Head, rest: string)
    requires h.Request? && HeadOk(h) && Stops(rest, DigitOrDot)
    ensures ParseRequest(HeadText(h) + rest) == Some((h, Skip(rest)))
  {
    var version := VERSION + rest;
    var target := TargetText(h.target) + (" " + version);
    RequestText(h, rest, h.cmd + (" " + target));
    assert Tight(target) by {
      TargetStarts(h.target);
    }
    WordBlank(h.cmd, target, Letter);
    TargetOf(h.target, " " + version);
    BlankSkipped(version);
    ProtocolOf(rest);
    RequestSteps(h.cmd + (" " + target), h, target, version, Skip(rest));
  }

  /** The rule for a request line, one step after the other. */
  lemma RequestSteps(s: string, h: Head, target: string, version: string, rest: string)
    requires h.Request? && Token(s, Letter) == Some((h.cmd, target))
    requires ParseTarget(target) == Some((h.target, version)) && ParseProtocol(version) == Some(rest)
    ensures ParseRequest(s) == Some((h, rest))
  {
  }

  lemma RequestText(h: Head, rest: string, s: string)
    requires h.Request? && s == h.cmd + (" " + (TargetText(h.target) + (" " + (VERSION + rest))))
    ensures HeadText(h) + rest == s
  {
    var t := TargetText(h.target);
    assert h.cmd + " " + t + " RTSP/1.0" + rest == h.cmd + (" " + (t + (" " + (VERSION + rest))));
  }

  lemma ResponseText(h: Head, rest: string, s: string)
    requires h.Response? && s == VERSION + (" " + (Decimal(h.code) + (" " + (h.msg + rest))))
    ensures HeadText(h) + rest == s
  {
    assert "RTSP/1.0 " == VERSION + " ";
    Grouped(VERSION + " ", Decimal(h.code), " ", h.msg, rest);
    assert VERSION + " " + (Decimal(h.code) + (" " + (h.msg + rest))) == s;
  }

  lemma Grouped(a: string, b: string, c: string, d: string, e: string)
    ensures a + b + c + d + e == a + (b + (c + (d + e)))
  {
  }

  lemma GroupedMore(a: string, b: string, c: string, d: string, e: string, f: string, g: string, h: string)
    ensures a + b + c + d + e + f + g + h == a + (b + (c + (d + (e + (f + (g + h))))))
  {
    Grouped(a + b + c + d, e, f, g, h);
    Grouped(a, b, c, d, e + (f + (g + h)));
  }

  lemma TargetStarts(t: Target)
    requires TargetOk(t)
    ensures |TargetText(t)| > 0 && Letter(TargetText(t)[0])
  {
  }

  lemma ResponseOf(h: Head, rest: string)
    requires h.Response? && HeadOk(h) && Stops(rest, LetterOrBlank)
    ensures ParseResponse(HeadText(h) + rest) == Some((h, Skip(rest)))
  {
    var msg := h.msg + rest;
    var code := Decimal(h.code) + (" " + msg);
    ResponseText(h, rest, VERSION + (" " + code));
    assert Digit(code[0]);
    ProtocolOf(" " + code);
    BlankSkipped(code);
    WordBlank(Decimal(h.code), msg, Digit);
    NumberOfDecimal(h.code);
    TokenOf(h.msg, rest, LetterOrBlank);
  }

  /** A response is not a request: after the word RTSP no protocol can follow the slash. */
  lemma NotARequest(rest: string)
    ensures ParseRequest(VERSION + rest) == None
  {
    var tail := "1.0" + rest;
    VersionText(rest);
    WordThen("RTSP", "/", tail, Letter);
    NoToken("/" + tail, Letter);
    assert Span("/" + tail, Letter) == 0;
    NoToken(tail, Letter);
  }

  const VERSION := "RTSP/1.0"

  lemma VersionText(rest: string)
    ensures VERSION + rest == "RTSP" + ("/" + ("1.0" + rest))
  {
  }

  lemma ProtocolOf(rest: string)
    requires Stops(rest, DigitOrDot)
    ensures ParseProtocol(VERSION + rest) == Some(Skip(rest))
  {
    VersionText(rest);
    WordThen("RTSP", "/", "1.0" + rest, Letter);
    TokenOf("1.0", rest, DigitOrDot);
  }

  lemma HeadOf(h: Head, rest: string)
    requires HeadOk(h)
    ensures ParseHead(HeadText(h) + (CRLF + rest)) == Some((h, CRLF + rest))
  {
    if h.Request? {
      RequestOf(h, CRLF + rest);
    } else {
      ResponseOf(h, CRLF + rest);
      var tail := " " + (Decimal(h.code) + (" " + (h.msg + (CRLF + rest))));
      ResponseText(h, CRLF + rest, VERSION + tail);
      NotARequest(tail);
    }
  }

  lemma CSeqText(number: string)
    ensures "CSeq: " + number == "CSeq:" + (" " + number)
  {
  }

  lemma CSeqOf(n: nat, rest: string)
    requires n <= MAX_INT
    ensures ParseCSeq("CSeq: " + (Decimal(n) + (CRLF + rest))) == Some((n, Skip(rest)))
  {
    var number := Decimal(n) + (CRLF + rest);
    assert Tight(number) by {
      assert Digit(number[0]);
    }
    CSeqLabel(number);
    TokenOf(Decimal(n), CRLF + rest, DigitOrDot);
    NumberOfDecimal(n);
    EndlineOf(rest);
    CSeqSteps("CSeq: " + number, number, Decimal(n), n, CRLF + rest, Skip(rest));
  }

  lemma CSeqLabel(number: string)
    requires Tight(number)
    ensures Literal("CSeq: " + number, "CSeq:") == Some(number)
  {
    CSeqText(number);
    LiteralOf("CSeq:", " " + number);
    BlankSkipped(number);
  }

  lemma CSeqSteps(s: string, number: string, digits: string, n: nat, afterNumber: string, rest: string)
    requires Literal(s, "CSeq:") == Some(number) && Token(number, DigitOrDot) == Some((digits, afterNumber))
    requires Number(digits) == n <= MAX_INT && SkipEndline(afterNumber) == rest
    ensures ParseCSeq(s) == Some((n, rest))
  {
  }

  /** A line with a key and a value; gap is the blank that the printer may put before the value. */
  lemma PairOf(key: string, value: string, sep: string, gap: string, chars: char -> bool, rest: string)
    requires PairOk(key, value, chars) && |sep| > 0 && !KeyChar(sep[0]) && !Blank(sep[0])
    requires (gap == "" || gap == " ") && !chars('\r')
    ensures ParsePair(key + (sep + (gap + (value + (CRLF + rest)))), sep, chars) == Some(((key, value), Skip(rest)))
  {
    var line := value + (CRLF + rest);
    var s := key + (sep + (gap + line));
    GapSkipped(gap, line);
    TokenOf(key, sep + (gap + line), KeyChar);
    LiteralOf(sep, gap + line);
    EndlineOf(rest);
    ValueOf(value, chars, rest);
    PairSteps(s, key, sep, sep + (gap + line), line, value, chars, CRLF + rest, Skip(rest));
  }

  lemma ValueOf(value: string, chars: char -> bool, rest: string)
    requires All(value, chars) && Tight(value) && !chars('\r')
    ensures Tight(value + (CRLF + rest))
    ensures Token(value + (CRLF + rest), chars) == if value == "" then None else Some((value, CRLF + rest))
    ensures value == "" ==> value + (CRLF + rest) == CRLF + rest
  {
    if value == "" {
      NoToken(CRLF + rest, chars);
    } else {
      TokenOf(value, CRLF + rest, chars);
    }
  }

  /** The rule for a pair, one step after the other. */
  lemma PairSteps(s: string, key: string, sep: string, afterKey: string, line: string, value: string,
                  chars: char -> bool, afterValue: string, rest: string)
    requires |sep| > 0 && Token(s, KeyChar) == Some((key, afterKey)) && Literal(afterKey, sep) == Some(line)
    requires Token(line, chars) == if value == "" then None else Some((value, afterValue))
    requires SkipEndline(if value == "" then line else afterValue) == rest
    ensures ParsePair(s, sep, chars) == Some(((key, value), rest))
  {
  }

  lemma GapSkipped(gap: string, line: string)
    requires (gap == "" || gap == " ") && Tight(line)
    ensures Skip(gap + line) == line
  {
    if gap == "" {
      assert gap + line == line;
    } else {
      BlankSkipped(line);
    }
  }

  ghost predicate OptionsOk(options: map<string, string>)
  {
    forall k :: k in options ==> PairOk(k, options[k], OptionChar)
  }

  ghost function Chosen(options: map<string, string>, keys: seq<string>): map<string, string>
    requires forall k :: k in keys ==> k in options
  {
    map k | k in keys :: options[k]
  }

  lemma OptionText(key: string, value: string, more: string, s: string)
    requires s == key + (":" + (" " + (value + (CRLF + more))))
    ensures key + ": " + value + CRLF + more == s
  {
  }

  lemma {:induction false} OptionsOf(options: map<string, string>, keys: seq<string>, rest: string,
                                     found: map<string, string>)
    requires OptionsOk(options) && forall k :: k in keys ==> k in options
    ensures ParseOptions(OptionLines(options, keys) + (CRLF + rest), found)
             == (found + Chosen(options, keys), CRLF + rest)
    decreases |keys|
  {
    var s := OptionLines(options, keys) + (CRLF + rest);
    if keys == [] {
      assert s == CRLF + rest;
      NoToken(s, KeyChar);
      assert found + Chosen(options, keys) == found;
    } else {
      FirstOption(options, keys, CRLF + rest);
      ParseOptionsNext(s, found, keys[0], options[keys[0]], OptionLines(options, keys[1..]) + (CRLF + rest));
      OptionsOf(options, keys[1..], rest, found[keys[0] := options[keys[0]]]);
      ChosenNext(options, keys, found);
    }
  }

  lemma ParseOptionsNext(s: string, found: map<string, string>, key: string, value: string, rest: string)
    requires ParsePair(s, ":", OptionChar) == Some(((key, value), rest))
    ensures ParseOptions(s, found) == ParseOptions(rest, found[key := value])
  {
  }

  lemma ChosenNext(options: map<string, string>, keys: seq<string>, found: map<string, string>)
    requires keys != [] && forall k :: k in keys ==> k in options
    ensures found[keys[0] := options[keys[0]]] + Chosen(options, keys[1..]) == found + Chosen(options, keys)
  {
  }

  lemma ChosenAll(options: map<string, string>, keys: seq<string>)
    requires Lists(keys, options)
    ensures map[] + Chosen(options, keys) == options
  {
  }

  lemma FirstOption(options: map<string, string>, keys: seq<string>, end: string)
    requires OptionsOk(options) && keys != [] && (forall k :: k in keys ==> k in options) && end != [] && Tight(end)
    ensures ParsePair(OptionLines(options, keys) + end, ":", OptionChar)
         == Some(((keys[0], options[keys[0]]), OptionLines(options, keys[1..]) + end))
  {
    var key, value := keys[0], options[keys[0]];
    var more := OptionLines(options, keys[1..]) + end;
    assert OptionLines(options, keys) + end == key + ": " + value + CRLF + more;
    OptionText(key, value, more, key + (":" + (" " + (value + (CRLF + more)))));
    PairOf(key, value, ":", " ", OptionChar, more);
    LinesAreTight(options, keys[1..], end);
  }

  lemma LinesAreTight(options: map<string, string>, keys: seq<string>, end: string)
    requires OptionsOk(options) && (forall k :: k in keys ==> k in options) && end != [] && Tight(end)
    ensures Skip(OptionLines(options, keys) + end) == OptionLines(options, keys) + end
  {
    if keys != [] {
      assert PairOk(keys[0], options[keys[0]], OptionChar);
      assert KeyChar(keys[0][0]) && (OptionLines(options, keys) + end)[0] == keys[0][0];
    } else {
      assert OptionLines(options, keys) + end == end;
    }
  }

  // Payloads, also those that are printed without a key

  /** A payload in the alphabets: with a key, or with a value only. */
  ghost predicate PayloadOk(p: (string, string))
  {
    if p.0 == "" then All(p.1, PayloadChar) && Tight(p.1) else PairOk(p.0, p.1, PayloadChar)
  }

  /** The value is itself a key, an equals sign and a value without leading blanks. */
  predicate Splits(v: string)
  {
    var n := Span(v, KeyChar);
    0 < n < |v| && v[n] == '=' && Tight(v[n + 1..])
  }

  /** The payload as it is read back. */
  predicate Keeps(p: (string, string))
  {
    p.0 != "" || Splits(p.1)
  }

  function SplitUp(p: (string, string)): (string, string)
    requires Keeps(p)
  {
    if p.0 != "" then p else (p.1[..Span(p.1, KeyChar)], p.1[Span(p.1, KeyChar) + 1..])
  }

  lemma SplitIsSameLine(p: (string, string))
    requires Keeps(p)
    ensures PayloadLine(SplitUp(p)) == PayloadLine(p) && SplitUp(p).0 != ""
  {
    if p.0 == "" {
      var n := Span(p.1, KeyChar);
      assert p.1 == p.1[..n] + "=" + p.1[n + 1..];
    }
  }

  /** A value that does not even begin with a key and an equals sign is not read as a payload. */
  lemma NoPair(v: string, rest: string)
    requires All(v, PayloadChar) && Tight(v)
    requires Span(v, KeyChar) == 0 || !EqualsNext(v)
    ensures ParsePair(v + (CRLF + rest), "=", PayloadChar) == None
  {
    var n, end := Span(v, KeyChar), CRLF + rest;
    if n == 0 {
      assert v == "" ==> v + end == end;
      NoToken(v + end, KeyChar);
    } else {
      KeyInValue(v, rest);
      var u := Skip(v[n..]);
      NotEquals(u, end);
    }
  }

  lemma NotEquals(u: string, end: string)
    requires |end| > 0 && end[0] != '=' && (u == "" || u[0] != '=')
    ensures Literal(u + end, "=") == None
  {
    assert (u + end)[0] != '=';
  }

  /** The key that is read from a value, up to a character that no key has. */
  lemma KeyInValue(v: string, rest: string)
    requires Span(v, KeyChar) > 0
    ensures var n := Span(v, KeyChar);
            && Token(v + (CRLF + rest), KeyChar) == Some((v[..n], Skip(v[n..]) + (CRLF + rest)))
  {
    var n := Span(v, KeyChar);
    KeyThen(v[..n], v[n..], CRLF + rest);
    Regrouped(v, n, CRLF + rest);
  }

  lemma KeyThen(key: string, a: string, end: string)
    requires |key| > 0 && All(key, KeyChar) && Stops(a, KeyChar) && end != "" && Stops(end, KeyChar) && Tight(end)
    ensures Token(key + (a + end), KeyChar) == Some((key, Skip(a) + end))
  {
    assert a == "" ==> a + end == end;
    TokenOf(key, a + end, KeyChar);
    SkipOf(a, end);
  }

  lemma Regrouped(v: string, n: nat, end: string)
    requires n <= |v|
    ensures v[..n] + (v[n..] + end) == v + end
  {
  }

  /** The value that is read behind the equals sign. */
  lemma RestOfValue(u: string, end: string)
    requires u != "" && u[0] == '=' && end != "" && Tight(end)
    ensures Literal(u + end, "=") == Some(Skip(u[1..]) + end)
  {
    assert u + end == "=" + (u[1..] + end);
    LiteralOf("=", u[1..] + end);
    SkipOf(u[1..], end);
  }

  /** Behind the leading key characters, and blanks, comes an equals sign. */
  predicate EqualsNext(v: string)
  {
    var u := Skip(v[Span(v, KeyChar)..]);
    u != "" && u[0] == '='
  }

  lemma PairInValue(v: string, rest: string)
    requires All(v, PayloadChar) && Tight(v) && Tight(rest) && Span(v, KeyChar) > 0 && EqualsNext(v)
    ensures var n := Span(v, KeyChar);
            var w := Skip(Skip(v[n..])[1..]);
            && ParsePair(v + (CRLF + rest), "=", PayloadChar) == Some(((v[..n], w), rest))
            && (if Splits(v) then w == v[n + 1..] else n + 1 + |w| < |v|)
  {
    var n := Span(v, KeyChar);
    var u := Skip(v[n..]);
    var w := Skip(u[1..]);
    ReadInValue(v, rest, n, u, w);
    WhenSplit(v, n, v[n..], u, w);
  }

  lemma ReadInValue(v: string, rest: string, n: nat, u: string, w: string)
    requires All(v, PayloadChar) && Tight(v) && Tight(rest) && n == Span(v, KeyChar) > 0
    requires u == Skip(v[n..]) && u != "" && u[0] == '=' && w == Skip(u[1..])
    ensures ParsePair(v + (CRLF + rest), "=", PayloadChar) == Some(((v[..n], w), rest))
  {
    var end := CRLF + rest;
    KeyInValue(v, rest);
    RestOfValue(u, end);
    PayloadCharsLeft(v, n, u, w);
    EndOfValue(w, rest, end);
    PairSteps(v + end, v[..n], "=", u + end, w + end, w, PayloadChar, end, rest);
  }

  lemma EndOfValue(w: string, rest: string, end: string)
    requires All(w, PayloadChar) && Tight(w) && Tight(rest) && end == CRLF + rest
    ensures Token(w + end, PayloadChar) == if w == "" then None else Some((w, end))
    ensures SkipEndline(if w == "" then w + end else end) == rest
  {
    ValueOf(w, PayloadChar, rest);
    EndlineOf(rest);
    TightIsKept(rest);
  }

  lemma PayloadCharsLeft(v: string, n: nat, u: string, w: string)
    requires n <= |v| && All(v, PayloadChar) && u == Skip(v[n..]) && u != "" && w == Skip(u[1..])
    ensures All(w, PayloadChar) && Tight(w)
  {
    SkipStaysIn(v[n..], PayloadChar);
    SkipStaysIn(u[1..], PayloadChar);
  }

  lemma TightIsKept(s: string)
    requires Tight(s)
    ensures Skip(s) == s
  {
  }

  lemma WhenSplit(v: string, n: nat, a: string, u: string, w: string)
    requires 0 < n <= |v| && n == Span(v, KeyChar) && a == v[n..] && u == Skip(a) && u != "" && u[0] == '='
    requires w == Skip(u[1..])
    ensures if Splits(v) then w == v[n + 1..] else n + 1 + |w| < |v|
  {
    SkipIsSuffix(a);
    SkipIsSuffix(u[1..]);
    assert a[0] == v[n];
    assert a[1..] == v[n + 1..];
    if Splits(v) {
      TightIsKept(a);
      TightIsKept(u[1..]);
    }
  }

  /** What reading makes of one payload line. */
  lemma PayloadLineOf(p: (string, string), rest: string)
    requires PayloadOk(p) && Tight(rest)
    ensures var r := ParsePair(PayloadLine(p) + rest, "=", PayloadChar);
            && (Keeps(p) ==> r == Some((SplitUp(p), rest)))
            && (!Keeps(p) && r.Some? ==> r.value.1 == rest && |PayloadLine(r.value.0)| < |PayloadLine(p)|)
  {
    TightIsKept(rest);
    if p.0 != "" {
      PayloadText(p, rest);
      PairOf(p.0, p.1, "=", "", PayloadChar, rest);
    } else {
      assert PayloadLine(p) + rest == p.1 + (CRLF + rest);
      if Span(p.1, KeyChar) == 0 || !EqualsNext(p.1) {
        NoPair(p.1, rest);
        SplitsHasEquals(p.1);
      } else {
        PairInValue(p.1, rest);
      }
    }
  }

  lemma SplitsHasEquals(v: string)
    ensures Splits(v) ==> EqualsNext(v)
  {
  }

  lemma PayloadText(p: (string, string), rest: string)
    requires p.0 != ""
    ensures PayloadLine(p) + rest == p.0 + ("=" + ("" + (p.1 + (CRLF + rest))))
  {
  }

  lemma PayloadsAreTight(ps: seq<(string, string)>)
    requires forall i :: 0 <= i < |ps| ==> PayloadOk(ps[i])
    ensures Tight(PayloadLines(ps))
  {
    if ps != [] {
      assert PayloadOk(ps[0]);
      PayloadLineStarts(ps[0]);
    }
  }

  lemma PayloadLineStarts(p: (string, string))
    requires PayloadOk(p)
    ensures |PayloadLine(p)| > 0 && !Blank(PayloadLine(p)[0])
  {
    if p.0 == "" {
      assert p.1 == "" ==> PayloadLine(p) == CRLF;
    } else {
      assert KeyChar(p.0[0]);
    }
  }

  predicate AllKept(ps: seq<(string, string)>)
  {
    forall i :: 0 <= i < |ps| ==> Keeps(ps[i])
  }

  lemma FirstKept(ps: seq<(string, string)>)
    requires ps != []
    ensures AllKept(ps) <==> Keeps(ps[0]) && AllKept(ps[1..])
  {
    if Keeps(ps[0]) && AllKept(ps[1..]) {
      forall i | 0 <= i < |ps|
        ensures Keeps(ps[i])
      {
        assert i > 0 ==> ps[i] == ps[1..][i - 1];
      }
    }
  }

  /**
   Reading printed payloads and printing them again gives the same lines if every one of them is
   kept, and fewer characters otherwise.
   */
  lemma {:induction false} PayloadsOf(ps: seq<(string, string)>)
    requires forall i :: 0 <= i < |ps| ==> PayloadOk(ps[i])
    ensures var again := PayloadLines(ParsePayloads(PayloadLines(ps)));
            if AllKept(ps) then again == PayloadLines(ps) else |again| < |PayloadLines(ps)|
  {
    if ps == [] {
      NoToken("", KeyChar);
    } else {
      var rest := PayloadLines(ps[1..]);
      PayloadsAreTight(ps[1..]);
      PayloadsOf(ps[1..]);
      PayloadLineOf(ps[0], rest);
      FirstKept(ps);
      FirstPayload(ps[0], rest, PayloadLine(ps[0]) + rest);
    }
  }

  lemma FirstPayload(p: (string, string), rest: string, s: string)
    requires PayloadOk(p) && Tight(rest) && s == PayloadLine(p) + rest
    ensures var again := PayloadLines(ParsePayloads(s));
            var later := PayloadLines(ParsePayloads(rest));
            && (Keeps(p) ==> again == PayloadLine(p) + later)
            && (!Keeps(p) ==> |again| < |PayloadLine(p)| + |later|)
  {
    PayloadLineOf(p, rest);
    if Keeps(p) {
      SplitIsSameLine(p);
    }
    var r := ParsePair(s, "=", PayloadChar);
    if r.Some? {
      assert ParsePayloads(s) == [r.value.0] + ParsePayloads(rest);
      assert ([r.value.0] + ParsePayloads(rest))[1..] == ParsePayloads(rest);
    }
  }

  lemma {:induction false} PayloadsKept(ps: seq<(string, string)>)
    requires forall i :: 0 <= i < |ps| ==> PayloadOk(ps[i]) && ps[i].0 != ""
    ensures ParsePayloads(PayloadLines(ps)) == ps
  {
    if ps == [] {
      NoToken("", KeyChar);
    } else {
      PayloadsAreTight(ps[1..]);
      PayloadsKept(ps[1..]);
      KeptNext(ps[0], PayloadLines(ps[1..]), PayloadLines(ps));
      assert ps == [ps[0]] + ps[1..];
    }
  }

  lemma KeptNext(p: (string, string), rest: string, s: string)
    requires PayloadOk(p) && p.0 != "" && Tight(rest) && s == PayloadLine(p) + rest
    ensures ParsePayloads(s) == [p] + ParsePayloads(rest)
  {
    PayloadLineOf(p, rest);
  }

  // Whole packets

  /** Every field lies in the alphabet that the grammar has for it. */
  ghost predicate PacketOk(p: Packet)
  {
    && HeadOk(p.head) && p.seqNumber <= MAX_INT && OptionsOk(p.options)
    && forall i :: 0 <= i < |p.payloads| ==> PayloadOk(p.payloads[i])
  }

  lemma PrintedText(p: Packet, keys: seq<string>, s: string)
    requires forall k :: k in keys ==> k in p.options
    requires s == HeadText(p.head) + (CRLF + ("CSeq: " + (Decimal(p.seqNumber) + (CRLF +
                    (OptionLines(p.options, keys) + (CRLF + PayloadLines(p.payloads)))))))
    ensures Printed(p, keys) == s
  {
    GroupedMore(HeadText(p.head), CRLF, "CSeq: ", Decimal(p.seqNumber), CRLF,
                OptionLines(p.options, keys), CRLF, PayloadLines(p.payloads));
  }

  lemma HeadStarts(h: Head, rest: string)
    requires HeadOk(h)
    ensures Skip(HeadText(h) + rest) == HeadText(h) + rest
  {
    assert |HeadText(h)| > 0 && Letter(HeadText(h)[0]);
    TightIsKept(HeadText(h) + rest);
  }

  /** Everything but the payloads is read back as it was. */
  lemma ParseOf(p: Packet, keys: seq<string>)
    requires PacketOk(p) && Lists(keys, p.options)
    ensures Parse(Printed(p, keys)) == Some(p.(payloads := ParsePayloads(PayloadLines(p.payloads))))
  {
    var pays := PayloadLines(p.payloads);
    var end := CRLF + pays;
    var lines := OptionLines(p.options, keys) + end;
    var cseq := "CSeq: " + (Decimal(p.seqNumber) + (CRLF + lines));
    var s := HeadText(p.head) + (CRLF + cseq);
    PrintedText(p, keys, s);
    HeadIsRead(p.head, cseq, s);
    CSeqIsRead(p, keys, end, lines, cseq);
    OptionsAreRead(p.options, keys, pays, lines, end);
    assert SkipEndline(end) == pays by {
      EndlineOf(pays);
      PayloadsAreTight(p.payloads);
      TightIsKept(pays);
    }
    ParseSteps(s, p.head, CRLF + cseq, cseq, p.seqNumber, lines, p.options, end, pays);
  }

  lemma HeadIsRead(h: Head, cseq: string, s: string)
    requires HeadOk(h) && Tight(cseq) && s == HeadText(h) + (CRLF + cseq)
    ensures Skip(s) == s && ParseHead(s) == Some((h, CRLF + cseq)) && ParseEndline(CRLF + cseq) == Some(cseq)
  {
    HeadStarts(h, CRLF + cseq);
    HeadOf(h, cseq);
    EndlineOf(cseq);
    TightIsKept(cseq);
  }

  lemma CSeqIsRead(p: Packet, keys: seq<string>, end: string, lines: string, cseq: string)
    requires PacketOk(p) && Lists(keys, p.options) && end != [] && Tight(end)
    requires lines == OptionLines(p.options, keys) + end
    requires cseq == "CSeq: " + (Decimal(p.seqNumber) + (CRLF + lines))
    ensures ParseCSeq(cseq) == Some((p.seqNumber, lines))
  {
    CSeqOf(p.seqNumber, lines);
    LinesAreTight(p.options, keys, end);
  }

  lemma OptionsAreRead(options: map<string, string>, keys: seq<string>, pays: string, lines: string, end: string)
    requires OptionsOk(options) && Lists(keys, options)
    requires end == CRLF + pays && lines == OptionLines(options, keys) + end
    ensures ParseOptions(lines, map[]) == (options, end)
  {
    OptionsOf(options, keys, pays, map[]);
    ChosenAll(options, keys);
  }

  /** The rule for a whole message, one step after the other. */
  lemma ParseSteps(s: string, head: Head, afterHead: string, cseq: string, n: nat, lines: string,
                   options: map<string, string>, end: string, payloads: string)
    requires Skip(s) == s && ParseHead(s) == Some((head, afterHead)) && ParseEndline(afterHead) == Some(cseq)
    requires ParseCSeq(cseq) == Some((n, lines)) && ParseOptions(lines, map[]) == (options, end)
    requires SkipEndline(end) == payloads
    ensures Parse(s) == Some(Packet(head, n, options, ParsePayloads(payloads)))
  {
  }

  /** The round trip: a packet whose payloads have keys is read back exactly as it was printed. */
  lemma RoundTrip(p: Packet, keys: seq<string>)
    requires PacketOk(p) && Lists(keys, p.options) && forall i :: 0 <= i < |p.payloads| ==> p.payloads[i].0 != ""
    ensures Parse(Printed(p, keys)) == Some(p)
  {
    ParseOf(p, keys);
    PayloadsKept(p.payloads);
  }

  /**
   With payloads that have no key the packet is read back, and printing it again gives the same
   text, exactly when each of their values is itself a key, an equals sign and a value.
   */
  lemma SameText(p: Packet, keys: seq<string>)
    requires PacketOk(p) && Lists(keys, p.options)
    ensures var again := Parse(Printed(p, keys));
            && again.Some? && again.value.options == p.options && again.value.head == p.head
            && again.value.seqNumber == p.seqNumber
            && (Printed(again.value, keys) == Printed(p, keys) <==>
                AllKept(p.payloads))
  {
    ParseOf(p, keys);
    PayloadsOf(p.payloads);
    var q := p.(payloads := ParsePayloads(PayloadLines(p.payloads)));
    var start := HeadText(p.head) + CRLF + "CSeq: " + Decimal(p.seqNumber) + CRLF + OptionLines(p.options, keys) + CRLF;
    assert Printed(p, keys) == start + PayloadLines(p.payloads);
    assert Printed(q, keys) == start + PayloadLines(q.payloads);
    if Printed(q, keys) == Printed(p, keys) {
      assert |PayloadLines(q.payloads)| == |PayloadLines(p.payloads)|;
    }
  }

  /** A payload that is only a word is not read back, so the second text is another. */
  lemma WordIsLost(head: Head, n: nat)
    requires HeadOk(head) && n <= MAX_INT
    ensures var p := Packet(head, n, map[], [("", "hello")]);
            && PacketOk(p)
            && var again := Parse(Printed(p, []));
            && again.Some? && again.value.options == map[] && Printed(again.value, []) != Printed(p, [])
  {
    var p := Packet(head, n, map[], [("", "hello")]);
    assert PayloadOk(p.payloads[0]);
    assert !Keeps(p.payloads[0]) by {
      assert Span("hello", KeyChar) == 5;
    }
    SameText(p, []);
  }
}
