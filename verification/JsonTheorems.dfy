/** What JSON.parse and JSON.stringify do to each other, and what a parser sees
    when it is shown only the beginning of a text. */
module JsonTheorems {
  import opened Json

  // ---------- extending a text that already parses ----------

  lemma {:induction false} SkipSpaceExtends(p: Text, q: Text)
    requires SkipSpace(p) != []
    ensures SkipSpace(p + q) == SkipSpace(p) + q
  {
    assert (p + q)[0] == p[0];
    if IsSpace(p[0]) {
      SkipSpaceExtends(p[1..], q);
      assert (p + q)[1..] == p[1..] + q;
    }
  }

  lemma {:induction false} DigitsExtend(p: Text, q: Text)
    requires Digits(p) < |p|
    ensures Digits(p + q) == Digits(p)
  {
    assert (p + q)[0] == p[0];
    if IsDigit(p[0]) {
      DigitsExtend(p[1..], q);
      assert (p + q)[1..] == p[1..] + q;
    }
  }

  lemma IntLengthExtends(p: Text, q: Text)
    requires 0 < IntLength(p) < |p|
    ensures IntLength(p + q) == IntLength(p)
  {
    assert (p + q)[0] == p[0];
    if p[0] != 48 {
      DigitsExtend(p, q);
    }
  }

  lemma FracLengthExtends(p: Text, q: Text)
    requires FracLength(p).Length? && FracLength(p).n < |p|
    ensures FracLength(p + q) == FracLength(p)
  {
    assert (p + q)[0] == p[0];
    if p[0] == DOT {
      assert (p + q)[1..] == p[1..] + q;
      DigitsExtend(p[1..], q);
    }
  }

  lemma ExpLengthExtends(p: Text, q: Text)
    requires ExpLength(p).Length? && ExpLength(p).n < |p|
    ensures ExpLength(p + q) == ExpLength(p)
  {
    assert (p + q)[0] == p[0];
    if IsExp(p[0]) {
      var sign := if |p| > 1 && IsSign(p[1]) then 2 else 1;
      assert |p| > 1 && (p + q)[1] == p[1];
      assert (p + q)[sign..] == p[sign..] + q;
      DigitsExtend(p[sign..], q);
    }
  }

  lemma FractionAndExponentExtends(p: Text, q: Text)
    requires FractionAndExponent(p).Length? && FractionAndExponent(p).n < |p|
    ensures FractionAndExponent(p + q) == FractionAndExponent(p)
  {
    var f := FracLength(p).n;
    FracLengthExtends(p, q);
    assert (p + q)[f..] == p[f..] + q;
    ExpLengthExtends(p[f..], q);
  }

  lemma UnsignedExtends(p: Text, q: Text)
    requires UnsignedLength(p).Length? && UnsignedLength(p).n < |p|
    ensures UnsignedLength(p + q) == UnsignedLength(p)
  {
    var i := IntLength(p);
    IntLengthExtends(p, q);
    assert (p + q)[i..] == p[i..] + q;
    FractionAndExponentExtends(p[i..], q);
  }

  /** A number that ends before the text does ends there in every extension. */
  lemma NumberExtends(p: Text, q: Text)
    requires NumberLength(p).Length? && NumberLength(p).n < |p|
    ensures NumberLength(p + q) == NumberLength(p)
  {
    assert (p + q)[0] == p[0] && (p + q)[1..] == p[1..] + q;
    if p[0] == MINUS {
      UnsignedExtends(p[1..], q);
    } else {
      UnsignedExtends(p, q);
    }
  }

  lemma {:induction false} StringExtends(p: Text, q: Text)
    requires ParseString(p).StringOk?
    ensures ParseString(p + q) == StringOk(ParseString(p).s, ParseString(p).rest + q)
  {
    assert (p + q)[0] == p[0] && (p + q)[1..] == p[1..] + q;
    if p[0] == QUOTE {
    } else if p[0] != BACKSLASH {
      StringExtends(p[1..], q);
    } else if p[1] == 117 {
      assert (p + q)[..6] == p[..6] && (p + q)[6..] == p[6..] + q;
      StringExtends(p[6..], q);
    } else {
      assert (p + q)[1] == p[1] && (p + q)[2..] == p[2..] + q;
      StringExtends(p[2..], q);
    }
  }

  /** Once a value other than a number has been read, or a number with
      something after it, more text changes nothing but the rest. */
  lemma {:induction false} ValueExtends(p: Text, q: Text)
    requires ParseValue(p).Ok? && (!ParseValue(p).v.Num? || ParseValue(p).rest != [])
    ensures ParseValue(p + q) == Ok(ParseValue(p).v, ParseValue(p).rest + q)
    decreases |p|, 1
  {
    var t := SkipSpace(p);
    SkipSpaceExtends(p, q);
    HeadExtends(t, q);
    if t[0] == QUOTE {
      StringExtends(t[1..], q);
    } else if t[0] == LBRACKET {
      ArrayExtends(t[1..], q);
    } else if t[0] == LBRACE {
      ObjectExtends(t[1..], q);
    } else if t[0] == 110 {
      LiteralExtends(t, NULL_TEXT, Null, q);
    } else if t[0] == 116 {
      LiteralExtends(t, TRUE_TEXT, Bool(true), q);
    } else if t[0] == 102 {
      LiteralExtends(t, FALSE_TEXT, Bool(false), q);
    } else {
      NumberValueExtends(t, q);
    }
  }

  lemma NumberValueExtends(t: Text, q: Text)
    requires ParseNumber(t).Ok? && ParseNumber(t).rest != []
    ensures ParseNumber(t + q) == Ok(ParseNumber(t).v, ParseNumber(t).rest + q)
  {
    NumberExtends(t, q);
    SliceExtends(t, q, NumberLength(t).n);
  }

  lemma SliceExtends(t: Text, q: Text, n: nat)
    requires n <= |t|
    ensures (t + q)[..n] == t[..n] && (t + q)[n..] == t[n..] + q
  {
  }

  lemma LiteralExtends(t: Text, word: Text, v: Json, q: Text)
    requires word != [] && ParseLiteral(t, word, v).Ok?
    ensures ParseLiteral(t + q, word, v) == Ok(v, ParseLiteral(t, word, v).rest + q)
  {
    assert (t + q)[|word|..] == t[|word|..] + q;
  }

  lemma HeadExtends(u: Text, q: Text)
    requires u != []
    ensures (u + q)[0] == u[0] && (u + q)[1..] == u[1..] + q
  {
  }

  lemma {:induction false} ArrayExtends(p: Text, q: Text)
    requires ParseArray(p).Ok?
    ensures ParseArray(p + q) == Ok(ParseArray(p).v, ParseArray(p).rest + q)
    decreases |p|, 3
  {
    var u := SkipSpace(p);
    SkipSpaceExtends(p, q);
    HeadExtends(u, q);
    if !Starts(u, RBRACKET) {
      ElementsExtend(u, q);
    }
  }

  lemma {:induction false} ObjectExtends(p: Text, q: Text)
    requires ParseObject(p).Ok?
    ensures ParseObject(p + q) == Ok(ParseObject(p).v, ParseObject(p).rest + q)
    decreases |p|, 4
  {
    var u := SkipSpace(p);
    SkipSpaceExtends(p, q);
    HeadExtends(u, q);
    if !Starts(u, RBRACE) {
      MembersExtend(u, q);
    }
  }

  lemma {:induction false} ElementsExtend(p: Text, q: Text)
    requires ParseElements(p).ElementsOk?
    ensures ParseElements(p + q) == ElementsOk(ParseElements(p).vs, ParseElements(p).rest + q)
    decreases |p|, 2
  {
    var v := ParseValue(p);
    ValueExtends(p, q);
    var u := SkipSpace(v.rest);
    SkipSpaceExtends(v.rest, q);
    HeadExtends(u, q);
    if !Starts(u, RBRACKET) {
      ElementsExtend(u[1..], q);
    }
  }

  lemma {:induction false} MemberExtends(p: Text, q: Text)
    requires ParseMember(p).MemberOk? && ParseMember(p).rest != []
    ensures ParseMember(p + q) == MemberOk(ParseMember(p).m, ParseMember(p).rest + q)
    decreases |p|, 2
  {
    var t := SkipSpace(p);
    SkipSpaceExtends(p, q);
    HeadExtends(t, q);
    StringExtends(t[1..], q);
    var k := ParseString(t[1..]);
    var c := SkipSpace(k.rest);
    SkipSpaceExtends(k.rest, q);
    HeadExtends(c, q);
    ValueExtends(c[1..], q);
  }

  lemma {:induction false} MembersExtend(p: Text, q: Text)
    requires ParseMembers(p).MembersOk?
    ensures ParseMembers(p + q) == MembersOk(ParseMembers(p).ms, ParseMembers(p).rest + q)
    decreases |p|, 3
  {
    var m := ParseMember(p);
    MemberExtends(p, q);
    var u := SkipSpace(m.rest);
    SkipSpaceExtends(m.rest, q);
    HeadExtends(u, q);
    if !Starts(u, RBRACE) {
      MembersExtend(u[1..], q);
    }
  }

  // ---------- reading back what was written ----------

  /** What follows a value inside an array or object, or at the end. */
  predicate Delimited(rest: Text) {
    rest == [] || rest[0] == COMMA || rest[0] == RBRACKET || rest[0] == RBRACE
  }

  lemma {:induction false} DigitsDelimited(s: Text, rest: Text)
    requires Delimited(rest)
    ensures Digits(s + rest) == Digits(s)
  {
    if s == [] {
      assert s + rest == rest;
    } else {
      DigitsDelimited(s[1..], rest);
      assert (s + rest)[1..] == s[1..] + rest;
    }
  }

  lemma ExpDelimited(s: Text, rest: Text)
    requires Delimited(rest)
    ensures ExpLength(s + rest) == ExpLength(s)
  {
    if s == [] {
      assert s + rest == rest;
    } else if IsExp(s[0]) {
      var sign := if |s| > 1 && IsSign(s[1]) then 2 else 1;
      assert (s + rest)[sign..] == s[sign..] + rest;
      DigitsDelimited(s[sign..], rest);
    }
  }

  lemma FracDelimited(s: Text, rest: Text)
    requires Delimited(rest)
    ensures FracLength(s + rest) == FracLength(s)
  {
    if s == [] {
      assert s + rest == rest;
    } else if s[0] == DOT {
      assert (s + rest)[1..] == s[1..] + rest;
      DigitsDelimited(s[1..], rest);
    }
  }

  lemma IntDelimited(s: Text, rest: Text)
    requires Delimited(rest)
    ensures IntLength(s + rest) == IntLength(s)
  {
    DigitsDelimited(s, rest);
    if s == [] {
      assert s + rest == rest;
    }
  }

  lemma FractionAndExponentDelimited(s: Text, rest: Text)
    requires Delimited(rest)
    ensures FractionAndExponent(s + rest) == FractionAndExponent(s)
  {
    FracDelimited(s, rest);
    var f := FracLength(s);
    if f.Length? {
      assert (s + rest)[f.n..] == s[f.n..] + rest;
      ExpDelimited(s[f.n..], rest);
    }
  }

  lemma UnsignedDelimited(s: Text, rest: Text)
    requires Delimited(rest)
    ensures UnsignedLength(s + rest) == UnsignedLength(s)
  {
    IntDelimited(s, rest);
    var i := IntLength(s);
    assert (s + rest)[i..] == s[i..] + rest;
    FractionAndExponentDelimited(s[i..], rest);
  }

  lemma NumberDelimited(s: Text, rest: Text)
    requires Delimited(rest)
    ensures NumberLength(s + rest) == NumberLength(s)
  {
    if Starts(s, MINUS) {
      HeadExtends(s, rest);
      UnsignedDelimited(s[1..], rest);
    } else {
      UnsignedDelimited(s, rest);
    }
  }

  lemma EscapedControl(u: Unit, t: Text)
    requires |EscapeUnit(u)| == 6
    ensures ParseString(EscapeUnit(u) + t) == Prepend(u, ParseString(t))
  {
    var s := EscapeUnit(u) + t;
    assert s[6..] == t;
    assert s[2] == 48 && s[3] == 48 && s[4] == HexDigit(u / 16) && s[5] == HexDigit(u % 16);
  }

  lemma EscapedUnit(u: Unit, t: Text)
    ensures ParseString(EscapeUnit(u) + t) == Prepend(u, ParseString(t))
  {
    var e := EscapeUnit(u);
    if |e| == 6 {
      EscapedControl(u, t);
    } else {
      assert (e + t)[|e|..] == t;
    }
  }

  lemma EscapeStep(u: Unit, s: Text, tail: Text, rest: Text)
    requires ParseString(tail) == StringOk(s, rest)
    ensures ParseString(EscapeUnit(u) + tail) == StringOk([u] + s, rest)
  {
    EscapedUnit(u, tail);
  }

  lemma EscapeCons(u: Unit, s: Text, end: Text)
    ensures Escape([u] + s) + end == EscapeUnit(u) + (Escape(s) + end)
  {
    Head(u, s);
    Assoc(EscapeUnit(u), Escape(s), end);
  }

  lemma {:induction false} EscapeRoundTrip(s: Text, end: Text, rest: Text)
    requires ParseString(end) == StringOk([], rest)
    ensures ParseString(Escape(s) + end) == StringOk(s, rest)
  {
    if s == [] {
      assert Escape(s) + end == end;
    } else {
      var u, t := s[0], s[1..];
      assert s == [u] + t;
      EscapeRoundTrip(t, end, rest);
      EscapeStep(u, t, Escape(t) + end, rest);
      EscapeCons(u, t, end);
    }
  }

  lemma QuotedRoundTrip(s: Text, rest: Text)
    ensures Starts(Quoted(s) + rest, QUOTE)
    ensures SkipSpace(Quoted(s) + rest) == Quoted(s) + rest
    ensures ParseString((Quoted(s) + rest)[1..]) == StringOk(s, rest)
  {
    Assoc([QUOTE], Escape(s) + [QUOTE], rest);
    Assoc(Escape(s), [QUOTE], rest);
    Head(QUOTE, Escape(s) + ([QUOTE] + rest));
    Head(QUOTE, rest);
    EscapeRoundTrip(s, [QUOTE] + rest, rest);
  }

  /** The first unit of a text tells what it is. */
  lemma FirstUnit(v: Json)
    requires WellFormed(v)
    ensures Stringify(v) != []
    ensures var u := Stringify(v)[0];
      !IsSpace(u) && u != RBRACKET && u != RBRACE && (v.Num? <==> u == MINUS || IsDigit(u))
  {
    match v
    case Num(t) =>
      if t[0] != MINUS {
        assert 0 < IntLength(t);
      }
    case _ =>
  }

  lemma SkipNothing(s: Text)
    requires s != [] && !IsSpace(s[0])
    ensures SkipSpace(s) == s
  {
  }

  lemma Assoc(a: Text, b: Text, c: Text)
    ensures (a + b) + c == a + (b + c)
  {
  }

  lemma Head(u: Unit, s: Text)
    ensures ([u] + s)[0] == u && ([u] + s)[1..] == s
  {
  }

  lemma LiteralRoundTrip(word: Text, v: Json, rest: Text)
    requires word != []
    ensures ParseLiteral(word + rest, word, v) == Ok(v, rest)
  {
    assert word <= word + rest && (word + rest)[|word|..] == rest;
  }

  lemma NumberRoundTrip(t: Text, rest: Text)
    requires IsNumber(t) && Delimited(rest)
    ensures ParseNumber(t + rest) == Ok(Num(t), rest)
  {
    NumberDelimited(t, rest);
    assert (t + rest)[..|t|] == t && (t + rest)[|t|..] == rest;
  }

  /** The first unit selects the branch of the parser. */
  lemma Dispatch(t: Text)
    requires t != [] && !IsSpace(t[0])
    ensures t[0] == MINUS || IsDigit(t[0]) ==> ParseValue(t) == ParseNumber(t)
    ensures t[0] == 110 ==> ParseValue(t) == ParseLiteral(t, NULL_TEXT, Null)
    ensures t[0] == 116 ==> ParseValue(t) == ParseLiteral(t, TRUE_TEXT, Bool(true))
    ensures t[0] == 102 ==> ParseValue(t) == ParseLiteral(t, FALSE_TEXT, Bool(false))
    ensures t[0] == LBRACKET ==> ParseValue(t) == ParseArray(t[1..])
    ensures t[0] == LBRACE ==> ParseValue(t) == ParseObject(t[1..])
    ensures t[0] == QUOTE && ParseString(t[1..]).StringOk? ==>
      ParseValue(t) == Ok(Str(ParseString(t[1..]).s), ParseString(t[1..]).rest)
  {
  }

  lemma ScalarRoundTrip(v: Json, rest: Text)
    requires WellFormed(v) && (v.Num? ==> Delimited(rest)) && !v.Arr? && !v.Obj?
    ensures ParseValue(Stringify(v) + rest) == Ok(v, rest)
  {
    FirstUnit(v);
    assert (Stringify(v) + rest)[0] == Stringify(v)[0];
    Dispatch(Stringify(v) + rest);
    match v
    case Null =>
      LiteralRoundTrip(NULL_TEXT, v, rest);
    case Bool(b) =>
      LiteralRoundTrip(if b then TRUE_TEXT else FALSE_TEXT, v, rest);
    case Num(t) =>
      NumberRoundTrip(t, rest);
    case Str(w) =>
      QuotedRoundTrip(w, rest);
  }

  lemma Bracketed(u: Unit, body: Text, rest: Text)
    requires u == LBRACKET || u == LBRACE
    ensures ParseValue(([u] + body) + rest) == if u == LBRACKET then ParseArray(body + rest) else ParseObject(body + rest)
  {
    Assoc([u], body, rest);
    Head(u, body + rest);
    Dispatch([u] + (body + rest));
  }

  /** Every value is read back exactly, and reading stops exactly after it. */
  lemma {:induction false} ValueRoundTrip(v: Json, rest: Text)
    requires WellFormed(v) && (v.Num? ==> Delimited(rest))
    ensures ParseValue(Stringify(v) + rest) == Ok(v, rest)
    decreases v, 1
  {
    match v
    case Arr(vs) =>
      ArrayRoundTrip(vs, rest);
      Bracketed(LBRACKET, StringifyElements(vs), rest);
    case Obj(ms) =>
      ObjectRoundTrip(ms, rest);
      Bracketed(LBRACE, StringifyMembers(ms), rest);
    case _ =>
      ScalarRoundTrip(v, rest);
  }

  lemma {:induction false} ArrayRoundTrip(vs: seq<Json>, rest: Text)
    requires forall i | 0 <= i < |vs| :: WellFormed(vs[i])
    ensures ParseArray(StringifyElements(vs) + rest) == Ok(Arr(vs), rest)
    decreases vs, 1
  {
    if vs == [] {
      Head(RBRACKET, rest);
      SkipNothing([RBRACKET] + rest);
    } else {
      FirstUnit(vs[0]);
      assert StringifyElements(vs)[0] == Stringify(vs[0])[0];
      assert (StringifyElements(vs) + rest)[0] == StringifyElements(vs)[0];
      SkipNothing(StringifyElements(vs) + rest);
      ElementsRoundTrip(vs, rest);
    }
  }

  lemma {:induction false} ElementsRoundTrip(vs: seq<Json>, rest: Text)
    requires vs != [] && forall i | 0 <= i < |vs| :: WellFormed(vs[i])
    ensures ParseElements(StringifyElements(vs) + rest) == ElementsOk(vs, rest)
    decreases vs, 0
  {
    if |vs| == 1 {
      var after := [RBRACKET] + rest;
      Assoc(Stringify(vs[0]), [RBRACKET], rest);
      Head(RBRACKET, rest);
      ValueRoundTrip(vs[0], after);
      SkipNothing(after);
      assert vs == [vs[0]];
    } else {
      var tail := StringifyElements(vs[1..]);
      var after := [COMMA] + (tail + rest);
      Assoc(Stringify(vs[0]), [COMMA] + tail, rest);
      Assoc([COMMA], tail, rest);
      Head(COMMA, tail + rest);
      ValueRoundTrip(vs[0], after);
      SkipNothing(after);
      ElementsRoundTrip(vs[1..], rest);
      assert vs == [vs[0]] + vs[1..];
    }
  }

  lemma {:induction false} ObjectRoundTrip(ms: seq<Member>, rest: Text)
    requires forall i | 0 <= i < |ms| :: WellFormed(ms[i].value)
    ensures ParseObject(StringifyMembers(ms) + rest) == Ok(Obj(ms), rest)
    decreases ms, 1
  {
    if ms == [] {
      Head(RBRACE, rest);
      SkipNothing([RBRACE] + rest);
    } else {
      assert StringifyMember(ms[0])[0] == QUOTE;
      assert StringifyMembers(ms)[0] == QUOTE;
      assert (StringifyMembers(ms) + rest)[0] == StringifyMembers(ms)[0];
      SkipNothing(StringifyMembers(ms) + rest);
      MembersRoundTrip(ms, rest);
    }
  }

  lemma {:induction false} MemberRoundTrip(m: Member, rest: Text)
    requires WellFormed(m.value) && Delimited(rest)
    ensures ParseMember(StringifyMember(m) + rest) == MemberOk(m, rest)
    decreases m, 2
  {
    var body := Stringify(m.value) + rest;
    Assoc(Quoted(m.key), [COLON] + Stringify(m.value), rest);
    Assoc([COLON], Stringify(m.value), rest);
    QuotedRoundTrip(m.key, [COLON] + body);
    Head(COLON, body);
    SkipNothing([COLON] + body);
    ValueRoundTrip(m.value, rest);
  }

  lemma {:induction false} MembersRoundTrip(ms: seq<Member>, rest: Text)
    requires ms != [] && forall i | 0 <= i < |ms| :: WellFormed(ms[i].value)
    ensures ParseMembers(StringifyMembers(ms) + rest) == MembersOk(ms, rest)
    decreases ms, 0
  {
    if |ms| == 1 {
      var after := [RBRACE] + rest;
      Assoc(StringifyMember(ms[0]), [RBRACE], rest);
      Head(RBRACE, rest);
      MemberRoundTrip(ms[0], after);
      SkipNothing(after);
      assert ms == [ms[0]];
    } else {
      var tail := StringifyMembers(ms[1..]);
      var after := [COMMA] + (tail + rest);
      Assoc(StringifyMember(ms[0]), [COMMA] + tail, rest);
      Assoc([COMMA], tail, rest);
      Head(COMMA, tail + rest);
      MemberRoundTrip(ms[0], after);
      SkipNothing(after);
      MembersRoundTrip(ms[1..], rest);
      assert ms == [ms[0]] + ms[1..];
    }
  }

  /** JSON.parse undoes JSON.stringify. */
  lemma ParseStringify(v: Json)
    requires WellFormed(v)
    ensures Parse(Stringify(v)) == Parsed(v)
  {
    ValueRoundTrip(v, []);
    assert Stringify(v) + [] == Stringify(v);
  }

  // ---------- no text contains a line feed ----------

  lemma {:induction false} DigitsAre(s: Text, i: nat)
    requires i < Digits(s)
    ensures IsDigit(s[i])
  {
    if i != 0 {
      DigitsAre(s[1..], i - 1);
    }
  }

  predicate NumberUnit(u: Unit) {
    IsDigit(u) || u == MINUS || u == PLUS || u == DOT || IsExp(u)
  }

  lemma ExponentUnits(s: Text, k: nat)
    requires ExpLength(s).Length? && k < ExpLength(s).n
    ensures NumberUnit(s[k])
  {
    var sign := if |s| > 1 && IsSign(s[1]) then 2 else 1;
    if k >= sign {
      DigitsAre(s[sign..], k - sign);
    }
  }

  lemma FractionUnits(s: Text, k: nat)
    requires FractionAndExponent(s).Length? && k < FractionAndExponent(s).n
    ensures NumberUnit(s[k])
  {
    var f := FracLength(s).n;
    if f <= k {
      ExponentUnits(s[f..], k - f);
    } else if 0 < k {
      DigitsAre(s[1..], k - 1);
    }
  }

  lemma UnsignedUnits(s: Text, k: nat)
    requires UnsignedLength(s).Length? && k < UnsignedLength(s).n
    ensures NumberUnit(s[k])
  {
    var i := IntLength(s);
    if i <= k {
      FractionUnits(s[i..], k - i);
    } else if s[0] != 48 {
      DigitsAre(s, k);
    }
  }

  lemma NumberUnits(s: Text, k: nat)
    requires NumberLength(s).Length? && k < NumberLength(s).n
    ensures NumberUnit(s[k])
  {
    if !Starts(s, MINUS) {
      UnsignedUnits(s, k);
    } else if k != 0 {
      UnsignedUnits(s[1..], k - 1);
    }
  }

  lemma {:induction false} EscapeNoNewline(s: Text)
    ensures NEWLINE !in Escape(s)
  {
    if s != [] {
      EscapeNoNewline(s[1..]);
    }
  }

  lemma {:induction false} NoNewline(v: Json)
    requires WellFormed(v)
    ensures NEWLINE !in Stringify(v)
    decreases v, 1
  {
    match v
    case Num(t) =>
      forall k | 0 <= k < |t| ensures t[k] != NEWLINE {
        NumberUnits(t, k);
      }
    case Str(s) => EscapeNoNewline(s);
    case Arr(vs) => ElementsNoNewline(vs);
    case Obj(ms) => MembersNoNewline(ms);
    case _ =>
  }

  lemma {:induction false} ElementsNoNewline(vs: seq<Json>)
    requires forall i | 0 <= i < |vs| :: WellFormed(vs[i])
    ensures NEWLINE !in StringifyElements(vs)
    decreases vs, 0
  {
    if vs != [] {
      NoNewline(vs[0]);
      ElementsNoNewline(vs[1..]);
    }
  }

  lemma {:induction false} MembersNoNewline(ms: seq<Member>)
    requires forall i | 0 <= i < |ms| :: WellFormed(ms[i].value)
    ensures NEWLINE !in StringifyMembers(ms)
    decreases ms, 0
  {
    if ms != [] {
      EscapeNoNewline(ms[0].key);
      NoNewline(ms[0].value);
      MembersNoNewline(ms[1..]);
    }
  }

  // ---------- which texts have a beginning that parses ----------

  /** A number token longer than one digit (after its sign). */
  predicate LongNumber(v: Json) {
    v.Num? && (|v.token| > 2 || (|v.token| == 2 && v.token[0] != MINUS))
  }

  /** The beginning of a text whose value is not a number never parses. */
  lemma NonNumberPrefix(v: Json, p: Text, q: Text)
    requires WellFormed(v) && !v.Num? && Stringify(v) == p + q && p != [] && q != []
    ensures Parse(p) == SyntaxError
  {
    FirstUnit(v);
    SkipNothing(p);
    ValueRoundTrip(v, []);
    assert Stringify(v) + [] == p + q;
    var r := ParseValue(p);
    if r.Ok? {
      ValueExtends(p, q);
    }
  }

  /** Exactly the long numbers have a proper beginning that parses: 12 starts
      with 1, while no beginning of -5 or of "ab" or of [1] is a JSON text. */
  lemma ParsableBeginning(v: Json)
    requires WellFormed(v)
    ensures LongNumber(v) <==>
      exists n :: 0 < n < |Stringify(v)| && Parse(Stringify(v)[..n]).Parsed?
  {
    var s := Stringify(v);
    if LongNumber(v) {
      LongNumberBeginning(v.token);
    } else {
      forall n | 0 < n < |s| ensures Parse(s[..n]) == SyntaxError {
        assert s == s[..n] + s[n..];
        if v.Num? {
          assert n == 1 && s[..1] == [MINUS];
          SkipNothing([MINUS]);
        } else {
          NonNumberPrefix(v, s[..n], s[n..]);
        }
      }
    }
  }

  /** The sign and first digit of a long number are a number themselves. */
  lemma LongNumberBeginning(t: Text)
    requires IsNumber(t) && LongNumber(Num(t))
    ensures var n := if t[0] == MINUS then 2 else 1;
      n < |t| && Parse(t[..n]) == Parsed(Num(t[..n]))
  {
    var n := if t[0] == MINUS then 2 else 1;
    assert IsDigit(t[n - 1]) by {
      if t[0] == MINUS {
        assert 0 < IntLength(t[1..]);
      } else {
        assert 0 < IntLength(t);
      }
    }
    SingleDigit(t[..n]);
    ParseStringify(Num(t[..n]));
  }

  lemma SingleDigit(p: Text)
    requires (|p| == 1 && IsDigit(p[0])) || (|p| == 2 && p[0] == MINUS && IsDigit(p[1]))
    ensures IsNumber(p)
  {
    var d := if |p| == 1 then p else p[1..];
    assert d[1..] == [] && Digits([]) == 0;
    assert IntLength(d) == 1 && FractionAndExponent([]) == Length(0);
    assert UnsignedLength(d) == Length(1);
  }

  // ---------- the texts themselves ----------

  function CodeUnit(c: char): Unit {
    c as int % 0x1_0000
  }

  function Units(s: string): Text {
    if s == "" then [] else [CodeUnit(s[0])] + Units(s[1..])
  }

  lemma Tokens()
    ensures Stringify(Null) == Units("null")
    ensures Stringify(Bool(true)) == Units("true")
    ensures Stringify(Bool(false)) == Units("false")
    ensures [NEWLINE] == Units("\n")
  {
  }

  /** Printable units stand for themselves; quotes, backslashes and control
      units are escaped. */
  lemma Escapes(u: Unit)
    ensures u >= 32 && [u] != Units("\"") && [u] != Units("\\") <==> EscapeUnit(u) == [u]
    ensures EscapeUnit(u) != [u] ==> EscapeUnit(u)[..1] == Units("\\")
    ensures [u] == Units("\"") ==> EscapeUnit(u) == Units("\\\"")
    ensures [u] == Units("\n") ==> EscapeUnit(u) == Units("\\n")
    ensures u == 1 ==> EscapeUnit(u) == Units("\\u0001")
  {
  }

  /** Strings are quoted, arrays and objects bracketed, and their parts
      separated, as sections 4, 5 and 7 of RFC 8259 have it. */
  lemma Punctuation(s: Text, v: Json, w: Json)
    ensures Stringify(Str(s)) == Units("\"") + (Escape(s) + Units("\""))
    ensures Stringify(Arr([])) == Units("[]") && Stringify(Obj([])) == Units("{}")
    ensures Stringify(Arr([v, w])) == Units("[") + (Stringify(v) + (Units(",") + (Stringify(w) + Units("]"))))
    ensures Stringify(Obj([Member(s, v)])) == Units("{") + ((Quoted(s) + (Units(":") + Stringify(v))) + Units("}"))
  {
    var last: seq<Json> := [w];
    assert [v, w][1..] == last;
    assert StringifyElements(last) == Stringify(w) + [RBRACKET];
    assert Units("[") == [LBRACKET] && Units("]") == [RBRACKET] && Units(",") == [COMMA];
    assert Units("{") == [LBRACE] && Units("}") == [RBRACE] && Units(":") == [COLON] && Units("\"") == [QUOTE];
    assert Stringify(Arr([v, w])) == [LBRACKET] + StringifyElements([v, w]);
    var m := Member(s, v);
    assert Stringify(Obj([m])) == [LBRACE] + StringifyMembers([m]);
    assert StringifyMembers([m]) == StringifyMember(m) + [RBRACE];
  }
}
