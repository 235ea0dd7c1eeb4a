/** The `--ranges` text of a new tenant. */
module RangeText {
  import opened Wrappers
  import opened Text
  import opened Decimals
  import opened RangeLayout

  datatype TextError = BadBoundary | NoBoundary | NotIncreasing | TooMany

  // ----- Reading

  /** `str::split`: never empty. */
  function SplitOn(s: string, sep: char): (parts: seq<string>)
    ensures parts != []
  {
    if s == "" then [""]
    else
      var rest := SplitOn(s[1..], sep);
      if s[0] == sep then [""] + rest else [[s[0]] + rest[0]] + rest[1..]
  }

  /** `parse` of an unsigned integer up to `max`: an optional plus sign and decimal digits. */
  function ParseUnsigned(s: string, max: nat): (r: Option<nat>)
    ensures r.Some? ==> r.value <= max
  {
    var digits := if s != "" && s[0] == '+' then s[1..] else s;
    if digits == "" || !AllDigits(digits) || ValueOf(digits) > max then None else Some(ValueOf(digits))
  }

  /** `parse_range_boundary`. */
  function ParseBoundary(token: string): Option<Boundary> {
    var parts := SplitOn(token, ':');
    if |parts| == 1 then
      var table := ParseUnsigned(parts[0], U64_MAX);
      if table.Some? then Some(Boundary(table.value, None, 0)) else None
    else if |parts| == 2 then
      var table, rowid := ParseUnsigned(parts[0], U64_MAX), ParseUnsigned(parts[1], U64_MAX);
      if table.Some? && rowid.Some? then Some(Boundary(table.value, None, rowid.value)) else None
    else if |parts| == 3 then
      var table, bucket := ParseUnsigned(parts[0], U64_MAX), ParseUnsigned(parts[1], U32_MAX);
      var rowid := ParseUnsigned(parts[2], U64_MAX);
      if table.Some? && bucket.Some? && rowid.Some? then Some(Boundary(table.value, Some(bucket.value), rowid.value))
      else None
    else None
  }

  /** The boundaries of the tokens, blank ones skipped, or none if one is malformed. */
  function ParseTokens(tokens: seq<string>): Option<seq<Boundary>> {
    if tokens == [] then Some([])
    else
      var token, rest := Trim(tokens[0]), ParseTokens(tokens[1..]);
      if token == "" then rest
      else
        var first := ParseBoundary(token);
        if first.Some? && rest.Some? then Some([first.value] + rest.value) else None
  }

  predicate Increasing(bs: seq<Boundary>) {
    forall i :: 0 <= i < |bs| - 1 ==> Less(bs[i], bs[i + 1])
  }

  /** The ranges between consecutive boundaries, numbered from 0. */
  function LayoutOf(tenant: string, initial: Lifecycle, bs: seq<Boundary>): (layout: Layout)
    ensures |layout| == |bs|
  {
    seq(|bs|, i requires 0 <= i < |bs| =>
      Entry(i, if i + 1 < |bs| then Some(bs[i + 1]) else None, 0, RangeEndpoint(tenant, i), initial, None))
  }

  /** `parse_range_layout`. */
  function ParseLayout(tenant: string, initial: Lifecycle, text: Option<string>): Result<Layout, TextError> {
    if text.None? then Ok([])
    else
      var boundaries := ParseTokens(SplitOn(text.value, ','));
      if boundaries.None? then Err(BadBoundary)
      else if boundaries.value == [] then Err(NoBoundary)
      else if boundaries.value[0] != START || !Increasing(boundaries.value) then Err(NotIncreasing)
      else if |boundaries.value| - 1 > U32_MAX then Err(TooMany)
      else Ok(LayoutOf(tenant, initial, boundaries.value))
  }

  lemma LayoutOfIsSound(tenant: string, initial: Lifecycle, bs: seq<Boundary>)
    requires bs != [] && bs[0] == START && Increasing(bs) && |bs| - 1 <= U32_MAX
    ensures Sound(LayoutOf(tenant, initial, bs)) && NamedEndpoints(tenant, LayoutOf(tenant, initial, bs))
    ensures forall i: nat :: i < |bs| ==> StartOf(LayoutOf(tenant, initial, bs), i) == bs[i]
  {
    var layout := LayoutOf(tenant, initial, bs);
    forall i: nat | i < |bs|
      ensures (i > 0 ==> layout[i - 1].end.Some?) && StartOf(layout, i) == bs[i]
    {
    }
    forall i | 0 <= i < |layout| - 1
      ensures Less(StartOf(layout, i), layout[i].end.value)
    {
      assert Less(bs[i], bs[i + 1]);
    }
  }

  /** An accepted text partitions the key space: every key has one range, and routing finds it. */
  lemma {:induction false} AcceptedTextPartitions(tenant: string, initial: Lifecycle, text: string, key: Boundary)
    requires ParseLayout(tenant, initial, Some(text)).Ok?
    ensures var layout := ParseLayout(tenant, initial, Some(text)).value;
            && Sound(layout) && NamedEndpoints(tenant, layout)
            && (forall i :: 0 <= i < |layout| ==>
                  layout[i].id == i && layout[i].generation == 0 && layout[i].lifecycle == initial)
            && Route(layout, key).Some? && Route(layout, key).value < |layout|
            && forall i: nat :: i < |layout| ==> (Contains(layout, i, key) <==> i == Route(layout, key).value)
  {
    LayoutOfIsSound(tenant, initial, ParseTokens(SplitOn(text, ',')).value);
    RouteFinds(ParseLayout(tenant, initial, Some(text)).value, key);
  }

  // ----- Writing

  function PrintBoundary(b: Boundary): string {
    if b.bucket.None? then Decimal(b.table) + ":" + Decimal(b.rowid)
    else Decimal(b.table) + ":" + (Decimal(b.bucket.value) + ":" + Decimal(b.rowid))
  }

  function Print(bs: seq<Boundary>): string {
    if bs == [] then "" else if |bs| == 1 then PrintBoundary(bs[0]) else PrintBoundary(bs[0]) + "," + Print(bs[1..])
  }

  predicate InRange(b: Boundary) {
    b.table <= U64_MAX && b.rowid <= U64_MAX && (b.bucket.Some? ==> b.bucket.value <= U32_MAX)
  }

  predicate Without(s: string, sep: char) {
    forall i :: 0 <= i < |s| ==> s[i] != sep
  }

  lemma {:induction false} SplitOnWhole(s: string, sep: char)
    requires Without(s, sep)
    ensures SplitOn(s, sep) == [s]
  {
    if s != "" {
      SplitOnWhole(s[1..], sep);
      assert [s[0]] + s[1..] == s;
    }
  }

  lemma {:induction false} SplitOnConcat(s: string, sep: char, t: string)
    requires Without(s, sep)
    ensures SplitOn(s + [sep] + t, sep) == [s] + SplitOn(t, sep)
  {
    var text := s + [sep] + t;
    if s == "" {
      assert text[1..] == t;
    } else {
      SplitOnConcat(s[1..], sep, t);
      assert text[1..] == s[1..] + [sep] + t;
      assert [s[0]] + s[1..] == s;
    }
  }

  lemma ParseDecimal(n: nat, max: nat)
    requires n <= max
    ensures ParseUnsigned(Decimal(n), max) == Some(n)
    ensures Without(Decimal(n), ':') && Without(Decimal(n), ',')
  {
    ValueOfDecimal(n);
  }

  lemma {:induction false} ParsePrintedBoundary(b: Boundary)
    requires InRange(b)
    ensures ParseBoundary(PrintBoundary(b)) == Some(b)
  {
    ParseDecimal(b.table, U64_MAX);
    ParseDecimal(b.rowid, U64_MAX);
    if b.bucket.None? {
      SplitTwo(Decimal(b.table), Decimal(b.rowid));
    } else {
      ParseDecimal(b.bucket.value, U32_MAX);
      SplitThree(Decimal(b.table), Decimal(b.bucket.value), Decimal(b.rowid));
    }
  }

  lemma SplitThree(s: string, t: string, u: string)
    requires Without(s, ':') && Without(t, ':') && Without(u, ':')
    ensures SplitOn(s + ":" + (t + ":" + u), ':') == [s, t, u]
  {
    SplitTwo(t, u);
    SplitOnConcat(s, ':', t + ":" + u);
  }

  lemma SplitTwo(s: string, t: string)
    requires Without(s, ':') && Without(t, ':')
    ensures SplitOn(s + ":" + t, ':') == [s, t]
  {
    SplitOnWhole(t, ':');
    SplitOnConcat(s, ':', t);
  }

  lemma PrintedIsTrimmed(b: Boundary)
    requires InRange(b)
    ensures Trim(PrintBoundary(b)) == PrintBoundary(b) && PrintBoundary(b) != "" && Without(PrintBoundary(b), ',')
  {
    ValueOfDecimal(b.table);
    ValueOfDecimal(b.rowid);
    if b.bucket.Some? {
      ValueOfDecimal(b.bucket.value);
    }
    var s := PrintBoundary(b);
    assert IsDigit(s[0]) && IsDigit(s[|s| - 1]);
    TrimIs(s);
  }

  lemma ParseTokensCons(token: string, b: Boundary, tokens: seq<string>, bs: seq<Boundary>)
    requires Trim(token) == token && token != "" && ParseBoundary(token) == Some(b) && ParseTokens(tokens) == Some(bs)
    ensures ParseTokens([token] + tokens) == Some([b] + bs)
  {
    assert ([token] + tokens)[1..] == tokens;
  }

  lemma PrintedTokens(b: Boundary, tokens: seq<string>, bs: seq<Boundary>)
    requires InRange(b) && ParseTokens(tokens) == Some(bs)
    ensures ParseTokens([PrintBoundary(b)] + tokens) == Some([b] + bs)
  {
    PrintedIsTrimmed(b);
    ParsePrintedBoundary(b);
    ParseTokensCons(PrintBoundary(b), b, tokens, bs);
  }

  lemma SplitPrinted(b: Boundary, text: string)
    requires InRange(b)
    ensures SplitOn(PrintBoundary(b), ',') == [PrintBoundary(b)] + []
    ensures SplitOn(PrintBoundary(b) + "," + text, ',') == [PrintBoundary(b)] + SplitOn(text, ',')
  {
    PrintedIsTrimmed(b);
    SplitOnWhole(PrintBoundary(b), ',');
    SplitOnConcat(PrintBoundary(b), ',', text);
  }

  lemma {:induction false} ParsePrintedTokens(bs: seq<Boundary>)
    requires bs != [] && forall i :: 0 <= i < |bs| ==> InRange(bs[i])
    ensures ParseTokens(SplitOn(Print(bs), ',')) == Some(bs)
  {
    var b, rest := bs[0], bs[1..];
    assert bs == [b] + rest;
    SplitPrinted(b, Print(rest));
    if rest == [] {
      PrintedTokens(b, [], []);
    } else {
      ParsePrintedTokens(rest);
      PrintedTokens(b, SplitOn(Print(rest), ','), rest);
    }
  }

  /** Every increasing list of boundaries from the start can be written and is read back as its ranges. */
  lemma {:induction false} ParsePrint(tenant: string, initial: Lifecycle, bs: seq<Boundary>)
    requires bs != [] && bs[0] == START && Increasing(bs) && |bs| - 1 <= U32_MAX
    requires forall i :: 0 <= i < |bs| ==> InRange(bs[i])
    ensures ParseLayout(tenant, initial, Some(Print(bs))) == Ok(LayoutOf(tenant, initial, bs))
  {
    ParsePrintedTokens(bs);
  }

  // ----- Other ways to write the same

  /** Digits are read as their number up to a limit, with or without a plus sign before them. */
  lemma {:induction false} UnsignedOf(digits: string, max: nat)
    requires digits != "" && forall i :: 0 <= i < |digits| ==> '0' <= digits[i] <= '9'
    ensures AllDigits(digits)
    ensures ParseUnsigned(digits, max) == if ValueOf(digits) <= max then Some(ValueOf(digits)) else None
    ensures ParseUnsigned("+" + digits, max) == if ValueOf(digits) <= max then Some(ValueOf(digits)) else None
  {
    assert digits[0] != '+';
    assert ("+" + digits)[0] == '+' && ("+" + digits)[1..] == digits;
  }

  /** Nothing else is a number. */
  lemma {:induction false} UnsignedOnly(s: string, max: nat)
    requires ParseUnsigned(s, max).Some?
    ensures exists digits: string ::
              && digits != "" && (s == digits || s == "+" + digits)
              && forall i :: 0 <= i < |digits| ==> '0' <= digits[i] <= '9'
  {
    var digits := if s != "" && s[0] == '+' then s[1..] else s;
    assert s == digits || s == "+" + digits;
    assert digits != "" && AllDigits(digits);
    assert forall i :: 0 <= i < |digits| ==> '0' <= digits[i] <= '9';
  }

  /** One, two or three numbers make a boundary: a table, then a rowid, or a bucket and a rowid. */
  lemma {:induction false} BoundaryForms(table: string, bucket: string, rowid: string)
    requires Without(table, ':') && Without(bucket, ':') && Without(rowid, ':')
    ensures var t, r := ParseUnsigned(table, 0xFFFF_FFFF_FFFF_FFFF), ParseUnsigned(rowid, 0xFFFF_FFFF_FFFF_FFFF);
            var b := ParseUnsigned(bucket, 0xFFFF_FFFF);
            && ParseBoundary(table) == (if t.None? then None else Some(Boundary(t.value, None, 0)))
            && ParseBoundary(table + ":" + rowid)
               == (if t.None? || r.None? then None else Some(Boundary(t.value, None, r.value)))
            && ParseBoundary(table + ":" + (bucket + ":" + rowid))
               == (if t.None? || b.None? || r.None? then None else Some(Boundary(t.value, Some(b.value), r.value)))
  {
    SplitOnWhole(table, ':');
    SplitTwo(table, rowid);
    SplitThree(table, bucket, rowid);
  }

  /** A token between commas, with white space around it; a blank one stands for nothing. */
  datatype Part = Part(before: string, token: string, after: string)

  predicate GoodPart(p: Part) {
    && Spaces(p.before) && Spaces(p.after) && Without(p.token, ',')
    && (p.token != "" ==> p.token[0] !in SPACES && p.token[|p.token| - 1] !in SPACES)
  }

  function PrintPart(p: Part): string {
    p.before + p.token + p.after
  }

  function PrintParts(ps: seq<Part>): string {
    if ps == [] then "" else if |ps| == 1 then PrintPart(ps[0]) else PrintPart(ps[0]) + "," + PrintParts(ps[1..])
  }

  /** The boundaries that the tokens spell, without the blank ones. */
  function BoundariesOf(ps: seq<Part>): Option<seq<Boundary>> {
    if ps == [] then Some([])
    else
      var rest := BoundariesOf(ps[1..]);
      if ps[0].token == "" then rest
      else
        var first := ParseBoundary(ps[0].token);
        if first.Some? && rest.Some? then Some([first.value] + rest.value) else None
  }

  lemma CommaIsNoSpace()
    ensures ',' !in SPACES
  {
    WhitespaceExactly(',');
  }

  lemma PartIs(p: Part)
    requires GoodPart(p)
    ensures Trim(PrintPart(p)) == p.token && Without(PrintPart(p), ',')
  {
    TrimAround(p.before, p.token, p.after);
    CommaIsNoSpace();
    var text := PrintPart(p);
    forall i | 0 <= i < |text|
      ensures text[i] != ','
    {
      if i < |p.before| {
        assert text[i] == p.before[i];
      } else if i < |p.before| + |p.token| {
        assert text[i] == p.token[i - |p.before|];
      } else {
        assert text[i] == p.after[i - |p.before| - |p.token|];
      }
    }
  }

  lemma {:induction false} TokensOfParts(ps: seq<Part>)
    requires ps != [] && forall i :: 0 <= i < |ps| ==> GoodPart(ps[i])
    ensures ParseTokens(SplitOn(PrintParts(ps), ',')) == BoundariesOf(ps)
  {
    var text := PrintPart(ps[0]);
    PartIs(ps[0]);
    if |ps| == 1 {
      SplitOnWhole(text, ',');
      assert [text][1..] == [] && ps[1..] == [];
    } else {
      TokensOfParts(ps[1..]);
      SplitOnConcat(text, ',', PrintParts(ps[1..]));
      var tokens := SplitOn(PrintParts(ps[1..]), ',');
      assert ([text] + tokens)[0] == text && ([text] + tokens)[1..] == tokens;
    }
  }

  /** Codes that rise from zero. */
  predicate CodesRise(bs: seq<Boundary>) {
    && bs != [] && bs[0] == Boundary(0, None, 0)
    && forall i :: 0 <= i < |bs| - 1 ==> CodeOf(bs[i]) < CodeOf(bs[i + 1])
  }

  lemma {:induction false} BoundariesInRange(ps: seq<Part>)
    requires BoundariesOf(ps).Some?
    ensures forall i :: 0 <= i < |BoundariesOf(ps).value| ==> InRange(BoundariesOf(ps).value[i])
  {
    if ps != [] {
      BoundariesInRange(ps[1..]);
    }
  }

  lemma RisesIsIncreasing(bs: seq<Boundary>)
    requires forall i :: 0 <= i < |bs| ==> InRange(bs[i])
    ensures Increasing(bs) <==> forall i :: 0 <= i < |bs| - 1 ==> CodeOf(bs[i]) < CodeOf(bs[i + 1])
  {
    forall i | 0 <= i < |bs| - 1
      ensures Less(bs[i], bs[i + 1]) <==> CodeOf(bs[i]) < CodeOf(bs[i + 1])
    {
      LessIsNumeric(bs[i], bs[i + 1]);
    }
  }

  /**
    A text of comma-separated tokens, with any white space, is accepted exactly when the tokens that are
    not blank spell boundaries that rise from the start of the key space.
   */
  lemma {:induction false} AcceptedExactly(tenant: string, initial: Lifecycle, ps: seq<Part>)
    requires ps != [] && forall i :: 0 <= i < |ps| ==> GoodPart(ps[i])
    ensures var r := ParseLayout(tenant, initial, Some(PrintParts(ps)));
            && (r.Ok? <==> BoundariesOf(ps).Some? && CodesRise(BoundariesOf(ps).value)
                           && |BoundariesOf(ps).value| <= 0x1_0000_0000)
            && (r.Ok? ==> r.value == LayoutOf(tenant, initial, BoundariesOf(ps).value))
            && (r == Err(BadBoundary) <==> BoundariesOf(ps).None?)
            && (r == Err(NoBoundary) <==> BoundariesOf(ps) == Some([]))
  {
    TokensOfParts(ps);
    if BoundariesOf(ps).Some? {
      BoundariesInRange(ps);
      RisesIsIncreasing(BoundariesOf(ps).value);
    }
  }
}
