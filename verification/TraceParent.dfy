/** The `traceparent` header (`tracing/trace_context.cpp`; section 3.2 of W3C Trace Context). */
module TraceParent {
  import opened Options

  const TRACE_ID_LENGTH := 32
  const SPAN_ID_LENGTH := 16
  const INVALID_TRACE_ID := "00000000000000000000000000000000"
  const INVALID_SPAN_ID := "0000000000000000"

  datatype SpanContext = SpanContext(traceId: string, spanId: string, sampled: bool, traceState: string) {
    predicate IsValid() {
      && |traceId| == TRACE_ID_LENGTH && traceId != INVALID_TRACE_ID
      && |spanId| == SPAN_ID_LENGTH && spanId != INVALID_SPAN_ID
    }
  }

  predicate IsHexDigit(c: char) { '0' <= c <= '9' || 'a' <= c <= 'f' }

  predicate IsLowerHex(s: string) { forall i :: 0 <= i < |s| ==> IsHexDigit(s[i]) }

  function HexValue(c: char): (d: int)
    requires IsHexDigit(c)
    ensures 0 <= d < 16
  {
    if c <= '9' then c as int - '0' as int else c as int - 'a' as int + 10
  }

  function ParseHexByte(s: string): (b: Option<int>)
    ensures b.Some? ==> 0 <= b.value < 256
  {
    if |s| != 2 || !IsLowerHex(s) then None else Some(16 * HexValue(s[0]) + HexValue(s[1]))
  }

  // ----- Splitting into fields -----

  function FirstDash(s: string): (i: nat)
    ensures i <= |s|
    ensures forall j :: 0 <= j < i ==> s[j] != '-'
    ensures i < |s| ==> s[i] == '-'
  {
    if s == "" || s[0] == '-' then 0 else 1 + FirstDash(s[1..])
  }

  /** The first fields of a header, at most `max` of them; what follows the last one is dropped. */
  function Split(s: string, max: nat): (fields: seq<string>)
    ensures |fields| <= max
  {
    if max == 0 then []
    else
      var i := FirstDash(s);
      if i == |s| then [s] else [s[..i]] + Split(s[i + 1..], max - 1)
  }

  /** string_view::find: where the next dash is from `begin` on, or the length. */
  method Find(header: string, begin: nat) returns (i: nat)
    requires begin <= |header|
    ensures i == begin + FirstDash(header[begin..])
  {
    i := begin;
    while i < |header| && header[i] != '-'
      invariant begin <= i <= |header|
      invariant FirstDash(header[begin..]) == i - begin + FirstDash(header[i..])
    {
      assert header[i..][1..] == header[i + 1..];
      i := i + 1;
    }
  }

  method SplitFields(header: string) returns (fields: seq<string>)
    ensures fields == Split(header, 4)
  {
    fields := [];
    var begin := 0;
    hide Split;
    assert header[0..] == header;
    while |fields| < 4
      invariant |fields| <= 4 && begin <= |header|
      invariant Split(header, 4) == fields + Split(header[begin..], 4 - |fields|)
    {
      var dash := Find(header, begin);
      SplitAtDash(header, begin, dash, 4 - |fields|);
      if dash == |header| {
        fields := fields + [header[begin..]];
        return;
      }
      var field := header[begin..dash];
      Regroup(fields, field, Split(header[dash + 1..], 3 - |fields|));
      fields := fields + [field];
      begin := dash + 1;
    }
  }

  lemma Regroup(found: seq<string>, field: string, rest: seq<string>)
    ensures found + ([field] + rest) == (found + [field]) + rest
  {}

  lemma SplitAtDash(header: string, begin: nat, dash: nat, max: nat)
    requires begin <= dash <= |header| && dash == begin + FirstDash(header[begin..]) && max > 0
    ensures Split(header[begin..], max) ==
            if dash == |header| then [header[begin..]] else [header[begin..dash]] + Split(header[dash + 1..], max - 1)
  {
    var i := FirstDash(header[begin..]);
    assert i < |header[begin..]| ==>
      header[begin..][..i] == header[begin..dash] && header[begin..][i + 1..] == header[dash + 1..];
  }

  // ----- Parsing and printing -----

  function ParseFields(fields: seq<string>): (c: Option<SpanContext>) {
    if |fields| < 4 then None
    else if ParseHexByte(fields[0]).None? || ParseHexByte(fields[0]) == Some(0xFF) then None
    else
      var context := SpanContext(fields[1], fields[2], false, "");
      if !IsLowerHex(fields[1]) || !IsLowerHex(fields[2]) || !context.IsValid() then None
      else if ParseHexByte(fields[3]).None? then None
      else Some(context.(sampled := ParseHexByte(fields[3]).value % 2 == 1))
  }

  function Parse(header: string): (c: Option<SpanContext>) {
    if header == "" then None else ParseFields(Split(header, 4))
  }

  method ParseTraceparent(header: string) returns (c: Option<SpanContext>)
    ensures c == Parse(header)
  {
    if header == "" {
      return None;
    }
    var fields := SplitFields(header);
    c := ParseFields(fields);
  }

  function Format(c: SpanContext): (s: string) {
    "00-" + (c.traceId + ("-" + (c.spanId + (if c.sampled then "-01" else "-00"))))
  }

  method FormatTraceparent(c: SpanContext) returns (s: string)
    ensures s == Format(c)
  {
    s := "00-";
    s := s + c.traceId;
    s := s + "-";
    s := s + c.spanId;
    s := s + if c.sampled then "-01" else "-00";
    assert s == Format(c);
  }

  // ----- Which headers are accepted -----

  predicate WellFormed(c: SpanContext) { IsLowerHex(c.traceId) && IsLowerHex(c.spanId) && c.IsValid() }

  predicate NoDash(s: string) { forall i :: 0 <= i < |s| ==> s[i] != '-' }

  lemma SplitField(x: string, rest: string, max: nat)
    requires NoDash(x) && max > 0
    ensures Split(x + ("-" + rest), max) == [x] + Split(rest, max - 1)
  {
    var s := x + ("-" + rest);
    DashAfter(x, "-" + rest);
    assert s[..|x|] == x && s[|x| + 1..] == rest;
  }

  lemma {:induction false} DashAfter(x: string, tail: string)
    requires NoDash(x) && (tail == "" || tail[0] == '-')
    ensures FirstDash(x + tail) == |x|
  {
    if x == "" {
      assert x + tail == tail;
    } else {
      assert (x + tail)[1..] == x[1..] + tail;
      DashAfter(x[1..], tail);
    }
  }

  lemma LastField(x: string, tail: string)
    requires NoDash(x) && (tail == "" || tail[0] == '-')
    ensures Split(x + tail, 1) == [x]
  {
    DashAfter(x, tail);
    assert (x + tail)[..|x|] == x;
    assert tail == "" ==> x + tail == x;
  }

  /** Four fields and what may follow them. */
  function Header(version: string, traceId: string, spanId: string, flags: string, tail: string): (s: string) {
    version + ("-" + (traceId + ("-" + (spanId + ("-" + (flags + tail))))))
  }

  lemma SplitHeader(version: string, traceId: string, spanId: string, flags: string, tail: string)
    requires NoDash(version) && NoDash(traceId) && NoDash(spanId) && NoDash(flags) && (tail == "" || tail[0] == '-')
    ensures Split(Header(version, traceId, spanId, flags, tail), 4) == [version, traceId, spanId, flags]
  {
    hide Split;
    LastField(flags, tail);
    SplitField(spanId, flags + tail, 2);
    SplitField(traceId, spanId + ("-" + (flags + tail)), 3);
    SplitField(version, traceId + ("-" + (spanId + ("-" + (flags + tail)))), 4);
  }

  /** One field taken off the front of a text that has more than one. */
  lemma UnsplitField(s: string, max: nat) returns (rest: string)
    requires max > 1 && |Split(s, max)| > 1
    ensures NoDash(Split(s, max)[0]) && s == Split(s, max)[0] + ("-" + rest)
    ensures Split(s, max)[1..] == Split(rest, max - 1)
  {
    var i := FirstDash(s);
    rest := s[i + 1..];
    assert s == s[..i] + ("-" + s[i + 1..]);
  }

  lemma UnsplitLast(s: string) returns (tail: string)
    ensures |Split(s, 1)| == 1 && NoDash(Split(s, 1)[0])
    ensures s == Split(s, 1)[0] + tail && (tail == "" || tail[0] == '-')
  {
    var i := FirstDash(s);
    tail := s[i..];
    assert s == s[..i] + s[i..];
    assert s[..|s|] == s;
    assert Split(s, 1) == [s[..i]];
  }

  lemma UnsplitHeader(s: string) returns (tail: string)
    requires |Split(s, 4)| == 4
    ensures s == Header(Split(s, 4)[0], Split(s, 4)[1], Split(s, 4)[2], Split(s, 4)[3], tail)
    ensures tail == "" || tail[0] == '-'
  {
    hide Split, NoDash;
    var s1 := UnsplitField(s, 4);
    var s2 := UnsplitField(s1, 3);
    var s3 := UnsplitField(s2, 2);
    tail := UnsplitLast(s3);
  }

  /** How a header that carries this context is written. */
  ghost predicate Carries(s: string, c: SpanContext, version: string, flags: string, tail: string) {
    && s == Header(version, c.traceId, c.spanId, flags, tail) && (tail == "" || tail[0] == '-')
    && WellFormed(c) && c.traceState == ""
    && |version| == 2 && IsLowerHex(version) && version != "ff"
    && |flags| == 2 && IsLowerHex(flags) && (c.sampled <==> flags[1] in "13579bdf")
  }

  lemma HexHasNoDash(s: string)
    requires IsLowerHex(s)
    ensures NoDash(s)
  {}

  lemma VersionByte(v: string)
    ensures ParseHexByte(v).Some? && ParseHexByte(v) != Some(0xFF) <==> |v| == 2 && IsLowerHex(v) && v != "ff"
  {
    if |v| == 2 && IsLowerHex(v) {
      assert v == [v[0], v[1]];
      if ParseHexByte(v) == Some(0xFF) {
        assert v[0] == 'f' && v[1] == 'f';
      }
    }
  }

  lemma FlagsByte(f: string)
    ensures ParseHexByte(f).Some? <==> |f| == 2 && IsLowerHex(f)
    ensures ParseHexByte(f).Some? ==> (ParseHexByte(f).value % 2 == 1 <==> f[1] in "13579bdf")
  {}

  /** The digits that are read are the ten and the six lowercase ones, each for its value. */
  lemma HexDigits(c: char, d: nat)
    ensures IsHexDigit(c) <==> c in "0123456789abcdef"
    ensures d < 16 ==> IsHexDigit("0123456789abcdef"[d]) && HexValue("0123456789abcdef"[d]) == d
  {}

  /** An id is valid when it has its length and is not all zeros. */
  lemma ValidIds(c: SpanContext)
    ensures c.IsValid() <==>
            && |c.traceId| == 32 && (exists i :: 0 <= i < |c.traceId| && c.traceId[i] != '0')
            && |c.spanId| == 16 && exists i :: 0 <= i < |c.spanId| && c.spanId[i] != '0'
  {
    assert |INVALID_TRACE_ID| == 32 && forall i :: 0 <= i < 32 ==> INVALID_TRACE_ID[i] == '0';
    assert |INVALID_SPAN_ID| == 16 && forall i :: 0 <= i < 16 ==> INVALID_SPAN_ID[i] == '0';
    AllZeros(c.traceId, INVALID_TRACE_ID);
    AllZeros(c.spanId, INVALID_SPAN_ID);
  }

  lemma AllZeros(s: string, zeros: string)
    requires forall i :: 0 <= i < |zeros| ==> zeros[i] == '0'
    ensures s == zeros <==> |s| == |zeros| && forall i :: 0 <= i < |s| ==> s[i] == '0'
  {}

  lemma FieldsCarry(f: seq<string>, c: SpanContext)
    requires |f| == 4
    ensures ParseFields(f) == Some(c) <==>
            && f[1] == c.traceId && f[2] == c.spanId && WellFormed(c) && c.traceState == ""
            && |f[0]| == 2 && IsLowerHex(f[0]) && f[0] != "ff"
            && |f[3]| == 2 && IsLowerHex(f[3]) && (c.sampled <==> f[3][1] in "13579bdf")
  {
    VersionByte(f[0]);
    FlagsByte(f[3]);
    hide IsLowerHex, ParseHexByte, HexValue;
  }

  /** A header parses to a context exactly when it has the form the standard gives: a version other
      than ff, the two ids, the flags, and possibly further fields. */
  lemma ParseIffCarries(s: string, c: SpanContext)
    ensures Parse(s) == Some(c) <==> exists version, flags, tail :: Carries(s, c, version, flags, tail)
  {
    if Parse(s) == Some(c) {
      var f := Split(s, 4);
      FieldsCarry(f, c);
      hide Split, Header, WellFormed, IsLowerHex;
      var tail := UnsplitHeader(s);
      assert Carries(s, c, f[0], f[3], tail);
    }
    if exists version, flags, tail :: Carries(s, c, version, flags, tail) {
      var version, flags, tail :| Carries(s, c, version, flags, tail);
      CarriedParses(s, c, version, flags, tail);
    }
  }

  lemma CarriedParses(s: string, c: SpanContext, version: string, flags: string, tail: string)
    requires Carries(s, c, version, flags, tail)
    ensures Parse(s) == Some(c)
  {
    HexHasNoDash(version);
    HexHasNoDash(c.traceId);
    HexHasNoDash(c.spanId);
    HexHasNoDash(flags);
    SplitHeader(version, c.traceId, c.spanId, flags, tail);
    assert s != "";
    FieldsCarry([version, c.traceId, c.spanId, flags], c);
  }

  // ----- Round trips -----

  lemma FormatIsHeader(c: SpanContext)
    ensures Format(c) == Header("00", c.traceId, c.spanId, if c.sampled then "01" else "00", "")
  {
    var flags := if c.sampled then "01" else "00";
    assert flags + "" == flags;
    assert (if c.sampled then "-01" else "-00") == "-" + flags;
    assert "00-" + (c.traceId + ("-" + (c.spanId + ("-" + flags)))) ==
      "00" + ("-" + (c.traceId + ("-" + (c.spanId + ("-" + flags)))));
  }

  /** Parsing what was printed gives the context back, without its vendor state, exactly when both ids
      are lowercase hex of the right length and not all zero. */
  lemma ParseUndoesFormat(c: SpanContext)
    ensures Parse(Format(c)) == Some(c.(traceState := "")) <==> WellFormed(c)
  {
    var d := c.(traceState := "");
    assert Format(c) == Format(d);
    if WellFormed(c) {
      FormatIsHeader(d);
      hide Header, Format;
      assert Carries(Format(d), d, "00", if c.sampled then "01" else "00", "");
      CarriedParses(Format(d), d, "00", if c.sampled then "01" else "00", "");
    }
    if Parse(Format(c)) == Some(d) {
      ParseIffCarries(Format(c), d);
    }
  }

  /** Whatever fields follow, version 00 included, a printed context is still read. */
  lemma ExtraFieldsAreIgnored(c: SpanContext, tail: string)
    requires WellFormed(c) && tail != "" && tail[0] == '-'
    ensures Parse(Format(c) + tail) == Some(c.(traceState := ""))
  {
    var d, flags := c.(traceState := ""), if c.sampled then "01" else "00";
    FormatIsHeader(c);
    HeaderWithTail("00", c.traceId, c.spanId, flags, tail);
    hide Header, Format;
    assert Carries(Format(c) + tail, d, "00", flags, tail);
    CarriedParses(Format(c) + tail, d, "00", flags, tail);
  }

  lemma HeaderWithTail(version: string, traceId: string, spanId: string, flags: string, tail: string)
    ensures Header(version, traceId, spanId, flags, "") + tail == Header(version, traceId, spanId, flags, tail)
  {
    assert flags + "" == flags;
    assert (spanId + ("-" + flags)) + tail == spanId + ("-" + (flags + tail));
    assert (traceId + ("-" + (spanId + ("-" + flags)))) + tail == traceId + ("-" + (spanId + ("-" + (flags + tail))));
  }

  /** Printing and reparsing any accepted header, of whatever version and with whatever extra fields,
      changes nothing. */
  lemma FormatUndoesParse(header: string)
    requires Parse(header).Some?
    ensures Parse(Format(Parse(header).value)) == Parse(header)
  {
    var c := Parse(header).value;
    ParseIffCarries(header, c);
    hide Parse, Format;
    assert WellFormed(c) && c.traceState == "";
    ParseUndoesFormat(c);
  }
}
