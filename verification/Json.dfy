/** JSON texts as sequences of UTF-16 code units: JSON.parse as a
    recursive-descent parser for the grammar of RFC 8259, and JSON.stringify
    without indentation.  A number is kept as its token. */
module Json {

  type Unit = u: int | 0 <= u < 0x1_0000
  type Text = seq<Unit>

  const TAB: Unit := 9
  const NEWLINE: Unit := 10
  const RETURN: Unit := 13
  const SPACE: Unit := 32
  const QUOTE: Unit := 34
  const PLUS: Unit := 43
  const COMMA: Unit := 44
  const MINUS: Unit := 45
  const DOT: Unit := 46
  const SLASH: Unit := 47
  const COLON: Unit := 58
  const LBRACKET: Unit := 91
  const BACKSLASH: Unit := 92
  const RBRACKET: Unit := 93
  const LBRACE: Unit := 123
  const RBRACE: Unit := 125
  const NULL_TEXT: Text := [110, 117, 108, 108]
  const TRUE_TEXT: Text := [116, 114, 117, 101]
  const FALSE_TEXT: Text := [102, 97, 108, 115, 101]

  datatype Json =
    | Null
    | Bool(b: bool)
    | Num(token: Text)
    | Str(s: Text)
    | Arr(elems: seq<Json>)
    | Obj(members: seq<Member>)

  datatype Member = Member(key: Text, value: Json)

  // ---------- numbers (section 6) ----------

  predicate Starts(s: Text, u: Unit) {
    s != [] && s[0] == u
  }

  predicate IsDigit(u: Unit) {
    48 <= u <= 57
  }

  /** How many digits the text starts with. */
  function Digits(s: Text): (n: nat)
    ensures n <= |s|
  {
    if s != [] && IsDigit(s[0]) then 1 + Digits(s[1..]) else 0
  }

  /** Length of the longest prefix that is an integer part, or 0. */
  function IntLength(s: Text): (n: nat)
    ensures n <= |s|
  {
    if s != [] && s[0] == 48 then 1 else Digits(s)
  }

  datatype Scan = Bad | Length(n: nat)

  /** An optional fraction; a point without a digit is an error. */
  function FracLength(s: Text): (r: Scan)
    ensures r.Length? ==> r.n <= |s|
  {
    if s == [] || s[0] != DOT then Length(0)
    else if Digits(s[1..]) == 0 then Bad
    else Length(1 + Digits(s[1..]))
  }

  predicate IsExp(u: Unit) {
    u == 101 || u == 69
  }

  predicate IsSign(u: Unit) {
    u == PLUS || u == MINUS
  }

  /** An optional exponent; an "e" without a digit is an error. */
  function ExpLength(s: Text): (r: Scan)
    ensures r.Length? ==> r.n <= |s|
  {
    if s == [] || !IsExp(s[0]) then Length(0)
    else
      var sign := if |s| > 1 && IsSign(s[1]) then 2 else 1;
      if Digits(s[sign..]) == 0 then Bad else Length(sign + Digits(s[sign..]))
  }

  /** n units, and then what the rest scans to. */
  function After(n: nat, r: Scan): Scan {
    if r.Bad? then Bad else Length(n + r.n)
  }

  function FractionAndExponent(s: Text): (r: Scan)
    ensures r.Length? ==> r.n <= |s|
  {
    var f := FracLength(s);
    if f.Bad? then Bad else After(f.n, ExpLength(s[f.n..]))
  }

  function UnsignedLength(s: Text): (r: Scan)
    ensures r.Length? ==> 0 < r.n <= |s|
  {
    var i := IntLength(s);
    if i == 0 then Bad else After(i, FractionAndExponent(s[i..]))
  }

  /** Length of the number token a text starts with. */
  function NumberLength(s: Text): (r: Scan)
    ensures r.Length? ==> 0 < r.n <= |s|
  {
    if Starts(s, MINUS) then After(1, UnsignedLength(s[1..])) else UnsignedLength(s)
  }

  predicate IsNumber(s: Text) {
    NumberLength(s) == Length(|s|)
  }

  // ---------- strings (section 7) ----------

  datatype StringResult = StringFail | StringOk(s: Text, rest: Text)

  predicate IsHex(u: Unit) {
    IsDigit(u) || 65 <= u <= 70 || 97 <= u <= 102
  }

  function HexValue(u: Unit): (v: int)
    requires IsHex(u)
    ensures 0 <= v < 16
  {
    if u <= 57 then u - 48 else if u <= 70 then u - 55 else u - 87
  }

  /** The unit a single-letter escape stands for. */
  function Unescape(u: Unit): (r: Scan)
    ensures r.Length? ==> r.n < 0x1_0000
  {
    if u == QUOTE || u == BACKSLASH || u == SLASH then Length(u)
    else if u == 98 then Length(8)
    else if u == 102 then Length(12)
    else if u == 110 then Length(10)
    else if u == 114 then Length(13)
    else if u == 116 then Length(9)
    else Bad
  }

  function Prepend(u: Unit, r: StringResult): StringResult {
    if r.StringOk? then StringOk([u] + r.s, r.rest) else StringFail
  }

  /** The rest of a string, after its opening quote. */
  function ParseString(s: Text): (r: StringResult)
    ensures r.StringOk? ==> |r.rest| < |s|
  {
    if s == [] then StringFail
    else if s[0] == QUOTE then StringOk([], s[1..])
    else if s[0] < 32 then StringFail
    else if s[0] != BACKSLASH then Prepend(s[0], ParseString(s[1..]))
    else if |s| < 2 then StringFail
    else if s[1] == 117 then
      if |s| < 6 || !(IsHex(s[2]) && IsHex(s[3]) && IsHex(s[4]) && IsHex(s[5])) then StringFail
      else
        var u := 4096 * HexValue(s[2]) + 256 * HexValue(s[3]) + 16 * HexValue(s[4]) + HexValue(s[5]);
        Prepend(u, ParseString(s[6..]))
    else
      var e := Unescape(s[1]);
      if e.Bad? then StringFail else Prepend(e.n, ParseString(s[2..]))
  }

  // ---------- values (sections 3 to 5) ----------

  datatype ValueResult = Fail | Ok(v: Json, rest: Text)
  datatype ElementsResult = ElementsFail | ElementsOk(vs: seq<Json>, rest: Text)
  datatype MemberResult = MemberFail | MemberOk(m: Member, rest: Text)
  datatype MembersResult = MembersFail | MembersOk(ms: seq<Member>, rest: Text)

  predicate IsSpace(u: Unit) {
    u == SPACE || u == TAB || u == NEWLINE || u == RETURN
  }

  function SkipSpace(s: Text): (r: Text)
    ensures |r| <= |s|
  {
    if s != [] && IsSpace(s[0]) then SkipSpace(s[1..]) else s
  }

  function ParseLiteral(s: Text, word: Text, v: Json): (r: ValueResult)
    requires word != []
    ensures r.Ok? ==> |r.rest| < |s|
  {
    if word <= s then Ok(v, s[|word|..]) else Fail
  }

  function ParseNumber(s: Text): (r: ValueResult)
    ensures r.Ok? ==> |r.rest| < |s|
  {
    var n := NumberLength(s);
    if n.Bad? then Fail else Ok(Num(s[..n.n]), s[n.n..])
  }

  function ParseValue(s: Text): (r: ValueResult)
    ensures r.Ok? ==> |r.rest| < |s|
    decreases |s|, 1
  {
    var t := SkipSpace(s);
    if t == [] then Fail
    else if t[0] == QUOTE then
      var r := ParseString(t[1..]);
      if r.StringOk? then Ok(Str(r.s), r.rest) else Fail
    else if t[0] == LBRACKET then ParseArray(t[1..])
    else if t[0] == LBRACE then ParseObject(t[1..])
    else if t[0] == 110 then ParseLiteral(t, NULL_TEXT, Null)
    else if t[0] == 116 then ParseLiteral(t, TRUE_TEXT, Bool(true))
    else if t[0] == 102 then ParseLiteral(t, FALSE_TEXT, Bool(false))
    else ParseNumber(t)
  }

  /** The rest of an array, after its bracket. */
  function ParseArray(s: Text): (r: ValueResult)
    ensures r.Ok? ==> |r.rest| < |s| && r.v.Arr?
    decreases |s|, 3
  {
    var u := SkipSpace(s);
    if Starts(u, RBRACKET) then Ok(Arr([]), u[1..])
    else
      var r := ParseElements(u);
      if r.ElementsOk? then Ok(Arr(r.vs), r.rest) else Fail
  }

  /** The rest of an object, after its brace. */
  function ParseObject(s: Text): (r: ValueResult)
    ensures r.Ok? ==> |r.rest| < |s| && r.v.Obj?
    decreases |s|, 4
  {
    var u := SkipSpace(s);
    if Starts(u, RBRACE) then Ok(Obj([]), u[1..])
    else
      var r := ParseMembers(u);
      if r.MembersOk? then Ok(Obj(r.ms), r.rest) else Fail
  }

  /** One or more comma-separated values and the closing bracket. */
  function ParseElements(s: Text): (r: ElementsResult)
    ensures r.ElementsOk? ==> |r.rest| < |s|
    decreases |s|, 2
  {
    var v := ParseValue(s);
    if v.Fail? then ElementsFail
    else
      var u := SkipSpace(v.rest);
      if Starts(u, RBRACKET) then ElementsOk([v.v], u[1..])
      else if Starts(u, COMMA) then
        var r := ParseElements(u[1..]);
        if r.ElementsOk? then ElementsOk([v.v] + r.vs, r.rest) else ElementsFail
      else ElementsFail
  }

  /** A key, a colon and a value. */
  function ParseMember(s: Text): (r: MemberResult)
    ensures r.MemberOk? ==> |r.rest| < |s|
    decreases |s|, 2
  {
    var t := SkipSpace(s);
    if !Starts(t, QUOTE) then MemberFail
    else
      var k := ParseString(t[1..]);
      if k.StringFail? then MemberFail
      else
        var c := SkipSpace(k.rest);
        if !Starts(c, COLON) then MemberFail
        else
          var v := ParseValue(c[1..]);
          if v.Fail? then MemberFail else MemberOk(Member(k.s, v.v), v.rest)
  }

  /** One or more comma-separated members and the closing brace. */
  function ParseMembers(s: Text): (r: MembersResult)
    ensures r.MembersOk? ==> |r.rest| < |s|
    decreases |s|, 3
  {
    var m := ParseMember(s);
    if m.MemberFail? then MembersFail
    else
      var u := SkipSpace(m.rest);
      if Starts(u, RBRACE) then MembersOk([m.m], u[1..])
      else if Starts(u, COMMA) then
        var r := ParseMembers(u[1..]);
        if r.MembersOk? then MembersOk([m.m] + r.ms, r.rest) else MembersFail
      else MembersFail
  }

  datatype ParseResult = SyntaxError | Parsed(v: Json)

  /** JSON.parse: one value and nothing after it but white space. */
  function Parse(s: Text): ParseResult {
    var r := ParseValue(s);
    if r.Ok? && SkipSpace(r.rest) == [] then Parsed(r.v) else SyntaxError
  }

  // ---------- JSON.stringify ----------

  function HexDigit(n: int): Unit
    requires 0 <= n < 16
  {
    if n < 10 then 48 + n else 87 + n
  }

  function EscapeUnit(u: Unit): Text {
    if u == QUOTE then [BACKSLASH, QUOTE]
    else if u == BACKSLASH then [BACKSLASH, BACKSLASH]
    else if u == 8 then [BACKSLASH, 98]
    else if u == 9 then [BACKSLASH, 116]
    else if u == 10 then [BACKSLASH, 110]
    else if u == 12 then [BACKSLASH, 102]
    else if u == 13 then [BACKSLASH, 114]
    else if u < 32 then [BACKSLASH, 117, 48, 48, HexDigit(u / 16), HexDigit(u % 16)]
    else [u]
  }

  function Escape(s: Text): Text {
    if s == [] then [] else EscapeUnit(s[0]) + Escape(s[1..])
  }

  function Quoted(s: Text): Text {
    [QUOTE] + (Escape(s) + [QUOTE])
  }

  function Stringify(v: Json): Text
    decreases v, 1
  {
    match v
    case Null => NULL_TEXT
    case Bool(b) => if b then TRUE_TEXT else FALSE_TEXT
    case Num(t) => t
    case Str(s) => Quoted(s)
    case Arr(vs) => [LBRACKET] + StringifyElements(vs)
    case Obj(ms) => [LBRACE] + StringifyMembers(ms)
  }

  /** The elements, separated by commas, and the closing bracket. */
  function StringifyElements(vs: seq<Json>): Text
    decreases vs, 0
  {
    if vs == [] then [RBRACKET]
    else if |vs| == 1 then Stringify(vs[0]) + [RBRACKET]
    else Stringify(vs[0]) + ([COMMA] + StringifyElements(vs[1..]))
  }

  function StringifyMember(m: Member): Text
    decreases m, 2
  {
    Quoted(m.key) + ([COLON] + Stringify(m.value))
  }

  function StringifyMembers(ms: seq<Member>): Text
    decreases ms, 0
  {
    if ms == [] then [RBRACE]
    else if |ms| == 1 then StringifyMember(ms[0]) + [RBRACE]
    else StringifyMember(ms[0]) + ([COMMA] + StringifyMembers(ms[1..]))
  }

  /** Every number in the value is a number token. The values of JavaScript are
      among these; so are objects that repeat a key. */
  predicate WellFormed(v: Json)
    decreases v, 1
  {
    match v
    case Num(t) => IsNumber(t)
    case Arr(vs) => forall i | 0 <= i < |vs| :: WellFormed(vs[i])
    case Obj(ms) => forall i | 0 <= i < |ms| :: WellFormed(ms[i].value)
    case _ => true
  }
}
