/** jsapp/json_datagram_socket.js: JSON messages over a stream, one per line,
    with the unterminated last line parsed eagerly. */
module DatagramSocket {
  import opened Json
  import opened JsonTheorems

  // ---------- the reader as a function ----------

  /** The text not yet consumed, and the 'data' events so far. */
  datatype Reader = Reader(partial: Text, emitted: seq<Json>)

  const FRESH := Reader([], [])

  /** partialMessage.split('\n'). */
  function Split(s: Text): (lines: seq<Text>)
    ensures lines != []
  {
    if s == [] then [[]]
    else if s[0] == NEWLINE then [[]] + Split(s[1..])
    else
      var rest := Split(s[1..]);
      [[s[0]] + rest[0]] + rest[1..]
  }

  function EmitLine(emitted: seq<Json>, line: Text): seq<Json> {
    var p := Parse(line);
    if p.Parsed? then emitted + [p.v] else emitted
  }

  function EmitLines(emitted: seq<Json>, lines: seq<Text>): seq<Json>
    decreases |lines|
  {
    if lines == [] then emitted else EmitLines(EmitLine(emitted, lines[0]), lines[1..])
  }

  /** Parse the unterminated line, if there is one. */
  function Eager(r: Reader): Reader {
    if r.partial != [] && Parse(r.partial).Parsed?
    then Reader([], r.emitted + [Parse(r.partial).v])
    else r
  }

  /** The state after one 'data' event of the underlying stream. */
  function Receive(r: Reader, data: Text): Reader {
    var lines := Split(r.partial + data);
    var last := |lines| - 1;
    Eager(Reader(lines[last], EmitLines(r.emitted, lines[..last])))
  }

  function Run(r: Reader, chunks: seq<Text>): Reader
    decreases |chunks|
  {
    if chunks == [] then r else Run(Receive(r, chunks[0]), chunks[1..])
  }

  // ---------- the class ----------

  class JsonDatagramSocket {
    var partialMessage: Text
    var emitted: seq<Json>
    var written: Text
    var reading: bool

    ghost function State(): Reader
      reads this
    {
      Reader(partialMessage, emitted)
    }

    constructor ()
      ensures State() == FRESH && written == [] && reading
    {
      partialMessage := [];
      emitted := [];
      written := [];
      reading := true;
    }

    method TryReadMessage()
      modifies this
      ensures State() == Receive(Reader([], old(emitted)), old(partialMessage))
      ensures written == old(written) && reading == old(reading)
    {
      var split := Split(partialMessage);
      assert [] + partialMessage == partialMessage;
      partialMessage := split[|split| - 1];

      var i := 0;
      while i < |split| - 1
        invariant 0 <= i <= |split| - 1
        invariant EmitLines(emitted, split[i..|split| - 1]) == EmitLines(old(emitted), split[..|split| - 1])
        invariant partialMessage == split[|split| - 1]
        invariant written == old(written) && reading == old(reading)
      {
        var msg := Parse(split[i]);
        assert split[i..|split| - 1][1..] == split[i + 1..|split| - 1];
        i := i + 1;
        if msg.SyntaxError? {
          continue;
        }
        emitted := emitted + [msg.v];
      }

      if partialMessage == [] {
        return;
      }
      var msg := Parse(partialMessage);
      if msg.SyntaxError? {
        return;
      }
      emitted := emitted + [msg.v];
      partialMessage := [];
    }

    /** The 'data' handler; ignored once the reader has been replaced. */
    method OnData(data: Text)
      modifies this
      ensures State() == if old(reading) then Receive(old(State()), data) else old(State())
      ensures written == old(written) && reading == old(reading)
    {
      if !reading {
        return;
      }
      partialMessage := partialMessage + data;
      assert [] + (old(partialMessage) + data) == old(partialMessage) + data;
      TryReadMessage();
    }

    method Destroy()
      modifies this`reading
      ensures !reading
    {
      reading := false;
    }

    method Write(msg: Json)
      modifies this`written
      ensures written == old(written) + (Stringify(msg) + [NEWLINE])
    {
      written := written + Stringify(msg);
      written := written + [NEWLINE];
      Assoc(old(written), Stringify(msg), [NEWLINE]);
    }

    /** What a sequence of writes puts on the wire. */
    method WriteAll(msgs: seq<Json>)
      modifies this`written
      ensures written == old(written) + Stream(msgs)
    {
      var i := 0;
      assert msgs[..0] == [];
      while i < |msgs|
        invariant 0 <= i <= |msgs|
        invariant written == old(written) + Stream(msgs[..i])
      {
        ghost var before := written;
        Write(msgs[i]);
        StreamSnoc(msgs[..i], msgs[i]);
        assert msgs[..i + 1] == msgs[..i] + [msgs[i]];
        Assoc(old(written), Stream(msgs[..i]), Stringify(msgs[i]) + [NEWLINE]);
        i := i + 1;
      }
      assert msgs[..i] == msgs;
    }
  }

  // ---------- the stream, and the reader one unit at a time ----------

  function Stream(msgs: seq<Json>): Text {
    if msgs == [] then [] else Stringify(msgs[0]) + ([NEWLINE] + Stream(msgs[1..]))
  }

  lemma LineAppend(t: Text, x: Text, y: Text)
    ensures t + ([NEWLINE] + (x + y)) == t + ([NEWLINE] + x) + y
  {
    Assoc([NEWLINE], x, y);
    Assoc(t, [NEWLINE] + x, y);
  }

  lemma {:induction false} StreamAppend(a: seq<Json>, b: seq<Json>)
    ensures Stream(a + b) == Stream(a) + Stream(b)
    decreases |a|
  {
    if a == [] {
      assert a + b == b;
    } else {
      StreamAppend(a[1..], b);
      assert (a + b)[1..] == a[1..] + b;
      LineAppend(Stringify(a[0]), Stream(a[1..]), Stream(b));
    }
  }

  lemma StreamSnoc(msgs: seq<Json>, m: Json)
    ensures Stream(msgs + [m]) == Stream(msgs) + (Stringify(m) + [NEWLINE])
  {
    StreamAppend(msgs, [m]);
    assert [NEWLINE] + [] == [NEWLINE];
  }

  function Concat(chunks: seq<Text>): Text {
    if chunks == [] then [] else chunks[0] + Concat(chunks[1..])
  }

  /** One unit: a line feed ends a line, anything else extends it. */
  function FeedUnit(r: Reader, u: Unit): Reader {
    if u == NEWLINE then Reader([], EmitLine(r.emitted, r.partial)) else Reader(r.partial + [u], r.emitted)
  }

  function Feed(r: Reader, s: Text): Reader
    decreases |s|
  {
    if s == [] then r else Feed(FeedUnit(r, s[0]), s[1..])
  }

  /** Lines read one at a time, the first one continuing `partial`. */
  function ReadLines(partial: Text, emitted: seq<Json>, lines: seq<Text>): Reader
    requires lines != []
    decreases |lines|
  {
    if |lines| == 1 then Reader(partial + lines[0], emitted)
    else ReadLines([], EmitLine(emitted, partial + lines[0]), lines[1..])
  }

  lemma ReadLinesExtend(partial: Text, emitted: seq<Json>, u: Unit, lines: seq<Text>)
    requires lines != []
    ensures ReadLines(partial + [u], emitted, lines) ==
      ReadLines(partial, emitted, [[u] + lines[0]] + lines[1..])
  {
    var extended := [[u] + lines[0]] + lines[1..];
    Assoc(partial, [u], lines[0]);
    assert extended[1..] == lines[1..];
  }

  lemma {:induction false} ReadLinesEmits(emitted: seq<Json>, lines: seq<Text>)
    requires lines != []
    ensures var last := |lines| - 1;
      ReadLines([], emitted, lines) == Reader(lines[last], EmitLines(emitted, lines[..last]))
    decreases |lines|
  {
    var last := |lines| - 1;
    assert [] + lines[0] == lines[0];
    if last != 0 {
      ReadLinesEmits(EmitLine(emitted, lines[0]), lines[1..]);
      assert lines[..last][1..] == lines[1..][..last - 1];
    }
  }

  /** Splitting into lines is feeding unit by unit. */
  lemma {:induction false} SplitFeeds(partial: Text, emitted: seq<Json>, s: Text)
    ensures Feed(Reader(partial, emitted), s) == ReadLines(partial, emitted, Split(s))
    decreases |s|
  {
    assert partial + [] == partial;
    if s == [] {
    } else if s[0] == NEWLINE {
      SplitFeeds([], EmitLine(emitted, partial), s[1..]);
      assert Split(s)[1..] == Split(s[1..]);
    } else {
      SplitFeeds(partial + [s[0]], emitted, s[1..]);
      ReadLinesExtend(partial, emitted, s[0], Split(s[1..]));
    }
  }

  lemma {:induction false} FeedAppend(r: Reader, s: Text, t: Text)
    ensures Feed(r, s + t) == Feed(Feed(r, s), t)
    decreases |s|
  {
    if s == [] {
      assert s + t == t;
    } else {
      assert (s + t)[1..] == s[1..] + t;
      FeedAppend(FeedUnit(r, s[0]), s[1..], t);
    }
  }

  lemma {:induction false} FeedPlain(r: Reader, s: Text)
    requires NEWLINE !in s
    ensures Feed(r, s) == Reader(r.partial + s, r.emitted)
    decreases |s|
  {
    if s == [] {
      assert r.partial + s == r.partial;
    } else {
      FeedPlain(FeedUnit(r, s[0]), s[1..]);
      assert r.partial + [s[0]] + s[1..] == r.partial + s;
    }
  }

  /** A data event feeds its units and then looks at the unterminated line. */
  lemma ReceiveIs(r: Reader, data: Text)
    requires NEWLINE !in r.partial
    ensures Receive(r, data) == Eager(Feed(r, data))
  {
    SplitFeeds([], r.emitted, r.partial + data);
    ReadLinesEmits(r.emitted, Split(r.partial + data));
    FeedAppend(Reader([], r.emitted), r.partial, data);
    FeedPlain(Reader([], r.emitted), r.partial);
    assert [] + r.partial == r.partial;
  }

  // ---------- every message once, in order ----------

  predicate Sendable(msgs: seq<Json>) {
    forall m | m in msgs :: WellFormed(m)
  }

  predicate NoLongNumber(msgs: seq<Json>) {
    forall m | m in msgs :: !LongNumber(m)
  }

  /** What is left to read when `todo` is left to emit: the rest of the stream
      after the pending line, or, when the first message was emitted early, a
      bare line feed first. */
  predicate Pending(r: Reader, rest: Text, todo: seq<Json>) {
    NEWLINE !in r.partial &&
    (r.partial + rest == Stream(todo) || (r.partial == [] && rest == [NEWLINE] + Stream(todo)))
  }

  lemma NewlineAt(p: Text, rest: Text, t: Text, tail: Text)
    requires p + rest == t + ([NEWLINE] + tail)
    ensures |p| > |t| ==> p[|t|] == NEWLINE
  {
    assert (t + ([NEWLINE] + tail))[|t|] == NEWLINE;
    assert |p| > |t| ==> (p + rest)[|t|] == p[|t|];
  }

  lemma NewlineHeads(rest: Text, t: Text, tail: Text)
    requires [NEWLINE] + rest == t + tail
    ensures t != [] ==> NEWLINE in t
  {
    Head(NEWLINE, rest);
    if t != [] {
      HeadExtends(t, tail);
      assert t[0] == NEWLINE;
    }
  }

  lemma NewlineFirst(rest: Text, t: Text, tail: Text)
    requires [NEWLINE] + rest == t + ([NEWLINE] + tail) && NEWLINE !in t
    ensures t == [] && rest == tail
  {
    NewlineHeads(rest, t, [NEWLINE] + tail);
    assert t + ([NEWLINE] + tail) == [NEWLINE] + tail;
    Head(NEWLINE, rest);
    Head(NEWLINE, tail);
  }

  lemma StreamTerminated(todo: seq<Json>)
    ensures todo != [] ==> NEWLINE in Stream(todo)
  {
    if todo != [] {
      assert Stream(todo)[|Stringify(todo[0])|] == NEWLINE;
    }
  }

  /** A pending line is a beginning of the next message. */
  lemma PendingLine(p: Text, rest: Text, todo: seq<Json>)
    requires Sendable(todo) && NEWLINE !in p && p + rest == Stream(todo) && todo != []
    ensures var t := Stringify(todo[0]);
      |p| <= |t| && p == t[..|p|] && rest == t[|p|..] + ([NEWLINE] + Stream(todo[1..]))
  {
    var t := Stringify(todo[0]);
    var s := p + rest;
    NewlineAt(p, rest, t, Stream(todo[1..]));
    assert forall i | 0 <= i < |p| :: p[i] == s[i] && s[i] == t[i];
    assert rest == s[|p|..];
  }

  /** Feeding one unit keeps the books balanced. */
  lemma FeedUnitBalanced(r: Reader, u: Unit, rest: Text, todo: seq<Json>) returns (left: seq<Json>)
    requires Sendable(todo) && Pending(r, [u] + rest, todo)
    ensures Sendable(left) && (NoLongNumber(todo) ==> NoLongNumber(left))
    ensures Pending(FeedUnit(r, u), rest, left)
    ensures FeedUnit(r, u).emitted + left == r.emitted + todo
  {
    left := todo;
    if r.partial + ([u] + rest) == Stream(todo) {
      assert todo != [];
      PendingLine(r.partial, [u] + rest, todo);
      var t := Stringify(todo[0]);
      var n := |r.partial|;
      NoNewline(todo[0]);
      if u == NEWLINE {
        assert NEWLINE !in t[n..];
        NewlineFirst(rest, t[n..], Stream(todo[1..]));
        assert r.partial == t;
        ParseStringify(todo[0]);
        left := todo[1..];
        assert [] + rest == rest;
        assert todo == [todo[0]] + left;
      } else {
        assert r.partial + [u] + rest == r.partial + ([u] + rest);
      }
    } else {
      Head(u, rest);
      Head(NEWLINE, Stream(todo));
      assert [] + rest == rest;
      assert Parse([]) == SyntaxError;
    }
  }

  lemma {:induction false} FeedBalanced(r: Reader, s: Text, rest: Text, todo: seq<Json>) returns (left: seq<Json>)
    requires Sendable(todo) && Pending(r, s + rest, todo)
    ensures Sendable(left) && (NoLongNumber(todo) ==> NoLongNumber(left))
    ensures Pending(Feed(r, s), rest, left)
    ensures Feed(r, s).emitted + left == r.emitted + todo
    decreases |s|
  {
    left := todo;
    if s == [] {
      assert s + rest == rest;
    } else {
      assert s + rest == [s[0]] + (s[1..] + rest);
      left := FeedUnitBalanced(r, s[0], s[1..] + rest, todo);
      left := FeedBalanced(FeedUnit(r, s[0]), s[1..], rest, left);
    }
  }

  /** Looking at the unterminated line early neither loses nor repeats a
      message, provided no message has a beginning that parses. */
  lemma EagerBalanced(r: Reader, rest: Text, todo: seq<Json>) returns (left: seq<Json>)
    requires Sendable(todo) && NoLongNumber(todo) && Pending(r, rest, todo)
    ensures Sendable(left) && NoLongNumber(left) && Pending(Eager(r), rest, left)
    ensures Eager(r).emitted + left == r.emitted + todo
  {
    left := todo;
    if Eager(r) != r {
      PendingLine(r.partial, rest, todo);
      ParsableBeginning(todo[0]);
      ParseStringify(todo[0]);
      var t := Stringify(todo[0]);
      assert r.partial == t && t[|t|..] == [];
      left := todo[1..];
      assert rest == [NEWLINE] + Stream(left);
      assert todo == [todo[0]] + left;
    }
  }

  lemma {:induction false} RunBalanced(r: Reader, chunks: seq<Text>, todo: seq<Json>)
    requires Sendable(todo) && NoLongNumber(todo) && Pending(r, Concat(chunks), todo)
    ensures Run(r, chunks) == Reader([], r.emitted + todo)
    decreases |chunks|
  {
    if chunks == [] {
      assert r.partial + [] == r.partial;
      StreamTerminated(todo);
      assert todo == [];
      assert r.emitted + [] == r.emitted;
    } else {
      var rest := Concat(chunks[1..]);
      var mid := FeedBalanced(r, chunks[0], rest, todo);
      var fed := Feed(r, chunks[0]);
      var left := EagerBalanced(fed, rest, mid);
      ReceiveIs(r, chunks[0]);
      RunBalanced(Eager(fed), chunks[1..], left);
    }
  }

  // ---------- the exact condition ----------

  lemma {:induction false} RunAppends(r: Reader, chunks: seq<Text>)
    ensures r.emitted <= Run(r, chunks).emitted
    decreases |chunks|
  {
    if chunks != [] {
      var lines := Split(r.partial + chunks[0]);
      LinesAppend(r.emitted, lines[..|lines| - 1]);
      RunAppends(Receive(r, chunks[0]), chunks[1..]);
    }
  }

  lemma {:induction false} LinesAppend(emitted: seq<Json>, lines: seq<Text>)
    ensures emitted <= EmitLines(emitted, lines)
    decreases |lines|
  {
    if lines != [] {
      LinesAppend(EmitLine(emitted, lines[0]), lines[1..]);
    }
  }

  /** Complete lines are read back whatever they contain. */
  lemma {:induction false} FeedStream(emitted: seq<Json>, msgs: seq<Json>)
    requires Sendable(msgs)
    ensures Feed(Reader([], emitted), Stream(msgs)) == Reader([], emitted + msgs)
    decreases |msgs|
  {
    if msgs == [] {
      assert emitted + msgs == emitted;
    } else {
      var t := Stringify(msgs[0]);
      NoNewline(msgs[0]);
      FeedAppend(Reader([], emitted), t, [NEWLINE] + Stream(msgs[1..]));
      FeedPlain(Reader([], emitted), t);
      assert [] + t == t;
      Head(NEWLINE, Stream(msgs[1..]));
      ParseStringify(msgs[0]);
      FeedStream(emitted + [msgs[0]], msgs[1..]);
      assert emitted + [msgs[0]] + msgs[1..] == emitted + msgs;
    }
  }

  lemma ConcatTwo(a: Text, b: Text)
    ensures Concat([a, b]) == a + b
  {
    var one: seq<Text> := [b];
    assert [a, b][1..] == one && b + [] == b;
    assert Concat(one) == b + Concat(one[1..]);
  }

  /** Cutting the stream inside message k. */
  lemma CutStream(msgs: seq<Json>, k: nat, p: Text, q: Text)
    requires k < |msgs| && Stringify(msgs[k]) == p + q
    ensures Stream(msgs) == (Stream(msgs[..k]) + p) + (q + ([NEWLINE] + Stream(msgs[k + 1..])))
  {
    var tail := [NEWLINE] + Stream(msgs[k + 1..]);
    assert msgs == msgs[..k] + msgs[k..] && msgs[k..][1..] == msgs[k + 1..];
    StreamAppend(msgs[..k], msgs[k..]);
    Assoc(p, q, tail);
    Assoc(Stream(msgs[..k]), p, q + tail);
  }

  lemma FeedCut(msgs: seq<Json>, p: Text)
    requires Sendable(msgs) && NEWLINE !in p
    ensures Feed(FRESH, Stream(msgs) + p) == Reader(p, msgs)
  {
    FeedStream([], msgs);
    assert [] + msgs == msgs && [] + p == p;
    FeedAppend(FRESH, Stream(msgs), p);
    FeedPlain(Reader([], msgs), p);
  }

  /** A message that is a long number can be cut after its first digit. */
  lemma LongNumberSplits(msgs: seq<Json>, k: nat) returns (chunks: seq<Text>)
    requires Sendable(msgs) && k < |msgs| && LongNumber(msgs[k])
    ensures Concat(chunks) == Stream(msgs) && Run(FRESH, chunks).emitted != msgs
    ensures var t := msgs[k].token;
      msgs[..k] + [Num(if t[0] == MINUS then t[..2] else t[..1])] <= Run(FRESH, chunks).emitted
  {
    assert msgs[k] in msgs;
    var t := msgs[k].token;
    LongNumberBeginning(t);
    NoNewline(msgs[k]);
    var n := if t[0] == MINUS then 2 else 1;
    assert t == t[..n] + t[n..];
    CutStream(msgs, k, t[..n], t[n..]);
    var first := Stream(msgs[..k]) + t[..n];
    var after := t[n..] + ([NEWLINE] + Stream(msgs[k + 1..]));
    chunks := [first, after];
    ConcatTwo(first, after);
    FeedCut(msgs[..k], t[..n]);
    ReceiveIs(FRESH, first);
    var r := Receive(FRESH, first);
    assert r.emitted == msgs[..k] + [Num(t[..n])];
    RunAppends(r, chunks[1..]);
    assert r.emitted[k] != msgs[k];
  }

  /** The reader emits exactly the messages written, in order, under every
      splitting of the stream into chunks, if and only if no message is a bare
      number of more than one digit. */
  lemma FramingExact(msgs: seq<Json>)
    requires Sendable(msgs)
    ensures NoLongNumber(msgs) <==>
      forall chunks | Concat(chunks) == Stream(msgs) :: Run(FRESH, chunks).emitted == msgs
  {
    if NoLongNumber(msgs) {
      forall chunks | Concat(chunks) == Stream(msgs)
        ensures Run(FRESH, chunks).emitted == msgs
      {
        assert [] + Concat(chunks) == Concat(chunks);
        RunBalanced(FRESH, chunks, msgs);
        assert [] + msgs == msgs;
      }
    } else {
      var k :| 0 <= k < |msgs| && LongNumber(msgs[k]);
      var chunks := LongNumberSplits(msgs, k);
    }
  }

  // ---------- one splitting at a time ----------

  /** The text after the last line feed. */
  function LineAt(s: Text): Text {
    if s == [] || s[|s| - 1] == NEWLINE then [] else LineAt(s[..|s| - 1]) + [s[|s| - 1]]
  }

  /** Where a chunk ends and its last line parses, the line is at its end. */
  predicate CleanCut(consumed: Text, rest: Text) {
    Parse(LineAt(consumed)).Parsed? ==> Starts(rest, NEWLINE)
  }

  /** Every chunk boundary is clean, when `before` has come before. */
  predicate CleanCuts(before: Text, chunks: seq<Text>)
    decreases |chunks|
  {
    chunks == [] ||
    (CleanCut(before + chunks[0], Concat(chunks[1..])) && CleanCuts(before + chunks[0], chunks[1..]))
  }

  lemma LineSnoc(s: Text, u: Unit)
    ensures LineAt(s + [u]) == if u == NEWLINE then [] else LineAt(s) + [u]
  {
    assert (s + [u])[..|s|] == s;
  }

  /** The pending line is the line the consumed text ends in, unless that was
      emitted early and no line feed has come since. */
  lemma {:induction false} FeedLine(r: Reader, before: Text, s: Text)
    requires r.partial == LineAt(before) || (r.partial == [] && Starts(s, NEWLINE))
    ensures Feed(r, s).partial == LineAt(before + s)
    decreases |s|
  {
    if s == [] {
      assert before + s == before;
    } else {
      LineSnoc(before, s[0]);
      FeedLine(FeedUnit(r, s[0]), before + [s[0]], s[1..]);
      assert before + [s[0]] + s[1..] == before + s;
    }
  }

  /** A complete message is emitted as soon as its last unit is there. */
  lemma EagerWhole(m: Json, emitted: seq<Json>)
    requires WellFormed(m)
    ensures Eager(Reader(Stringify(m), emitted)) == Reader([], emitted + [m])
  {
    ParseStringify(m);
    assert Parse([]) == SyntaxError;
  }

  /** And nothing is emitted early but what the pending text parses to. */
  lemma EagerExact(r: Reader, m: Json)
    ensures Eager(r) == Reader([], r.emitted + [m]) <==> Parse(r.partial) == Parsed(m)
    ensures Eager(r) == r <==> Parse(r.partial) == SyntaxError
  {
    assert Parse([]) == SyntaxError;
    if Parse(r.partial).Parsed? {
      var v := Parse(r.partial).v;
      assert (r.emitted + [v])[|r.emitted|] == v && (r.emitted + [m])[|r.emitted|] == m;
    } else {
      assert |r.emitted + [m]| != |r.emitted|;
    }
  }

  lemma NumberFits(p: Text)
    requires Parse(p).Parsed? && Parse(p).v.Num?
    ensures |Parse(p).v.token| <= |p|
  {
    var t := SkipSpace(p);
    assert ParseValue(p) == ParseNumber(t);
  }

  /** A proper beginning of a message never parses to that message. */
  lemma BeginningDiffers(m: Json, p: Text, q: Text)
    requires WellFormed(m) && Stringify(m) == p + q && q != []
    ensures Parse(p) != Parsed(m)
  {
    if p == [] {
      assert Parse(p) == SyntaxError;
    } else if !m.Num? {
      NonNumberPrefix(m, p, q);
    } else if Parse(p).Parsed? && Parse(p).v.Num? {
      NumberFits(p);
    }
  }

  /** The look at an unterminated line that parses: at a clean cut it emits the
      message owed, at any other something else. */
  lemma EagerAtCut(r: Reader, rest: Text, todo: seq<Json>)
    requires Sendable(todo) && NEWLINE !in r.partial && r.partial + rest == Stream(todo)
    requires Parse(r.partial).Parsed?
    ensures todo != [] && r.partial != []
    ensures Starts(rest, NEWLINE) ==>
      Eager(r) == Reader([], r.emitted + [todo[0]]) && rest == [NEWLINE] + Stream(todo[1..])
    ensures !Starts(rest, NEWLINE) ==>
      |Eager(r).emitted| == |r.emitted| + 1 && Eager(r).emitted[|r.emitted|] != todo[0]
  {
    assert Parse([]) == SyntaxError;
    PendingLine(r.partial, rest, todo);
    var t := Stringify(todo[0]);
    var q := t[|r.partial|..];
    assert t == r.partial + q;
    NoNewline(todo[0]);
    if q == [] {
      assert r.partial == t && rest == [NEWLINE] + Stream(todo[1..]);
      EagerWhole(todo[0], r.emitted);
    } else {
      HeadExtends(q, [NEWLINE] + Stream(todo[1..]));
      assert rest[0] == t[|r.partial|];
      BeginningDiffers(todo[0], r.partial, q);
    }
  }

  lemma LineAfter(r: Reader, before: Text, s: Text, rest: Text)
    requires r.partial == LineAt(before) || (r.partial == [] && Starts(s + rest, NEWLINE))
    ensures Feed(r, s).partial == LineAt(before + s) || (Feed(r, s).partial == [] && Starts(rest, NEWLINE))
  {
    if s == [] {
      assert s + rest == rest && before + s == before;
    } else {
      HeadExtends(s, rest);
      FeedLine(r, before, s);
    }
  }

  lemma FirstOwed(emitted: seq<Json>, todo: seq<Json>)
    requires todo != []
    ensures (emitted + [todo[0]]) + todo[1..] == emitted + todo
    ensures (emitted + todo)[|emitted|] == todo[0]
  {
  }

  /** A pending line that parses is not empty, so it has not been emitted yet. */
  lemma ParsesPending(r: Reader, rest: Text, todo: seq<Json>)
    requires Pending(r, rest, todo) && Parse(r.partial).Parsed?
    ensures NEWLINE !in r.partial && r.partial + rest == Stream(todo)
  {
    assert Parse([]) == SyntaxError;
  }

  lemma CleanEager(r: Reader, rest: Text, todo: seq<Json>)
    requires Sendable(todo) && Pending(r, rest, todo) && Parse(r.partial).Parsed? && Starts(rest, NEWLINE)
    ensures todo != [] && Eager(r) == Reader([], r.emitted + [todo[0]]) && rest == [NEWLINE] + Stream(todo[1..])
    ensures Eager(r).emitted + todo[1..] == r.emitted + todo
  {
    ParsesPending(r, rest, todo);
    EagerAtCut(r, rest, todo);
    FirstOwed(r.emitted, todo);
  }

  lemma DirtyEager(r: Reader, rest: Text, todo: seq<Json>, chunks: seq<Text>)
    requires Sendable(todo) && Pending(r, rest, todo) && Parse(r.partial).Parsed? && !Starts(rest, NEWLINE)
    ensures Run(Eager(r), chunks).emitted != r.emitted + todo
  {
    ParsesPending(r, rest, todo);
    EagerAtCut(r, rest, todo);
    RunAppends(Eager(r), chunks);
    FirstOwed(r.emitted, todo);
  }

  /** From every balanced state, one splitting of the rest is read correctly if
      and only if all its cuts are clean. */
  lemma {:induction false} CutsBalanced(r: Reader, before: Text, chunks: seq<Text>, todo: seq<Json>)
    requires Sendable(todo) && Pending(r, Concat(chunks), todo)
    requires r.partial == LineAt(before) || (r.partial == [] && Starts(Concat(chunks), NEWLINE))
    ensures Run(r, chunks).emitted == r.emitted + todo <==> CleanCuts(before, chunks)
    decreases |chunks|, 1
  {
    if chunks == [] {
      assert r.partial + [] == r.partial;
      StreamTerminated(todo);
      assert r.emitted + [] == r.emitted;
    } else {
      var rest := Concat(chunks[1..]);
      var mid := FeedBalanced(r, chunks[0], rest, todo);
      LineAfter(r, before, chunks[0], rest);
      ReceiveIs(r, chunks[0]);
      LooksBalanced(Feed(r, chunks[0]), before + chunks[0], chunks[1..], mid);
    }
  }

  lemma {:induction false} LooksBalanced(r: Reader, before: Text, chunks: seq<Text>, todo: seq<Json>)
    requires Sendable(todo) && Pending(r, Concat(chunks), todo)
    requires r.partial == LineAt(before) || (r.partial == [] && Starts(Concat(chunks), NEWLINE))
    ensures Run(Eager(r), chunks).emitted == r.emitted + todo <==>
      CleanCut(before, Concat(chunks)) && CleanCuts(before, chunks)
    decreases |chunks|, 2
  {
    assert Parse([]) == SyntaxError;
    if !Parse(r.partial).Parsed? {
      CutsBalanced(r, before, chunks, todo);
    } else if Starts(Concat(chunks), NEWLINE) {
      CleanEager(r, Concat(chunks), todo);
      CutsBalanced(Eager(r), before, chunks, todo[1..]);
    } else {
      DirtyEager(r, Concat(chunks), todo, chunks);
    }
  }

  /** A splitting of the stream, whatever the messages, is read correctly if and
      only if no chunk ends inside a message at a place where what there is of
      the message parses. */
  lemma SplittingExact(msgs: seq<Json>, chunks: seq<Text>)
    requires Sendable(msgs) && Concat(chunks) == Stream(msgs)
    ensures Run(FRESH, chunks).emitted == msgs <==> CleanCuts([], chunks)
  {
    assert [] + Concat(chunks) == Concat(chunks) && [] + msgs == msgs;
    CutsBalanced(FRESH, [], chunks, msgs);
  }

  /** A line that is no JSON text is skipped and disturbs nothing around it. */
  lemma JunkIsSkipped(before: seq<Json>, junk: Text, after: seq<Json>)
    requires Sendable(before) && Sendable(after) && NEWLINE !in junk && Parse(junk) == SyntaxError
    ensures Receive(FRESH, (Stream(before) + junk) + ([NEWLINE] + Stream(after))) == Reader([], before + after)
  {
    var tail := [NEWLINE] + Stream(after);
    FeedCut(before, junk);
    FeedAppend(FRESH, Stream(before) + junk, tail);
    Head(NEWLINE, Stream(after));
    FeedStream(before, after);
    ReceiveIs(FRESH, (Stream(before) + junk) + tail);
  }
}
