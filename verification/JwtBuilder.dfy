/** The JSON Web Token builder: a streaming base64url encoder into a bounded, NUL-terminated buffer. */
module JwtBuilder {
  import opened Options
  import opened Base64Url

  const EINVAL: int := 22

  // ---- What a section's text is when the pending bytes start out as `stale`

  /** The text of the bytes `sec` streamed and flushed from a builder whose three pending-byte cells hold
      `stale`. Only a section shorter than one group can see the stale cells. */
  function StreamedText(stale: seq<bv8>, sec: seq<bv8>): seq<bv8>
    requires |stale| == 3
  {
    if |sec| == 1 then Chars([Sextet0(sec[0]), Sextet1(sec[0], stale[1])])
    else if |sec| == 2 then Chars([Sextet0(sec[0]), Sextet1(sec[0], sec[1]), Sextet2(sec[1], stale[2])])
    else Encode(sec)
  }

  /** What a caller can tell from the pending-byte cells and the section length. */
  predicate StaleBitsHarmless(stale: seq<bv8>, n: nat)
    requires |stale| == 3
  {
    n == 0 || n >= 3 || (n == 1 && stale[1] >> 4 == 0) || (n == 2 && stale[2] >> 6 == 0)
  }

  lemma SextetSeesStale(a: bv8, b: bv8)
    ensures Sextet1(a, b) == Sextet1(a, 0) <==> b >> 4 == 0
    ensures Sextet2(a, b) == Sextet2(a, 0) <==> b >> 6 == 0
    ensures Sextet1(a, b) < 64 && Sextet2(a, b) < 64
  {
  }

  lemma CharInjective(v: bv8, w: bv8)
    requires v < 64 && w < 64
    ensures Base64Char(v) == Base64Char(w) <==> v == w
  {
    CharRoundTrip(v);
    CharRoundTrip(w);
  }

  /** A section comes out as its base64url text exactly when no stale bits reach its last character. */
  lemma StreamedTextExact(stale: seq<bv8>, sec: seq<bv8>)
    requires |stale| == 3
    ensures StreamedText(stale, sec) == Encode(sec) <==> StaleBitsHarmless(stale, |sec|)
  {
    if |sec| == 1 {
      SextetSeesStale(sec[0], stale[1]);
      SextetSeesStale(sec[0], 0);
      CharInjective(Sextet1(sec[0], stale[1]), Sextet1(sec[0], 0));
      assert StreamedText(stale, sec)[1] == Base64Char(Sextet1(sec[0], stale[1]));
      assert Encode(sec)[1] == Base64Char(Sextet1(sec[0], 0));
    } else if |sec| == 2 {
      SextetSeesStale(sec[1], stale[2]);
      SextetSeesStale(sec[1], 0);
      CharInjective(Sextet2(sec[1], stale[2]), Sextet2(sec[1], 0));
      assert StreamedText(stale, sec)[2] == Base64Char(Sextet2(sec[1], stale[2]));
      assert Encode(sec)[2] == Base64Char(Sextet2(sec[1], 0));
    }
  }

  /** What the length of the first section guards against: one byte streamed over uncleared cells gets a wrong
      second character. The builder starts with its header, which is longer than a group. */
  lemma StaleCellExample()
    ensures StreamedText([0, 255, 0], [0]) != Encode([0])
  {
    var stale: seq<bv8> := [0, 255, 0];
    StreamedTextExact(stale, [0]);
    assert stale[1] >> 4 == 15;
  }

  // ---- The encoder on values

  /** The text written so far, the three pending-byte cells and how many of them are in use. */
  datatype Encoder = Encoder(text: seq<bv8>, wip: seq<bv8>, pending: nat)

  predicate Open(e: Encoder) { |e.wip| == 3 && e.pending <= 2 }

  function Char0(w: seq<bv8>): bv8 requires |w| == 3 { Base64Char(w[0] >> 2) }
  function Char1(w: seq<bv8>): bv8 requires |w| == 3 { Base64Char(((w[0] & 0x03) << 4) | (w[1] >> 4)) }
  function Char2(w: seq<bv8>): bv8 requires |w| == 3 { Base64Char(((w[1] & 0x0f) << 2) | (w[2] >> 6)) }
  function Char3(w: seq<bv8>): bv8 requires |w| == 3 { Base64Char(w[2] & 0x3f) }

  /** The text after the characters of the open group. */
  function WithGroup(e: Encoder): seq<bv8>
    requires |e.wip| == 3 && e.pending >= 1
  {
    var two := e.text + [Char0(e.wip)] + [Char1(e.wip)];
    var three := if e.pending >= 2 then two + [Char2(e.wip)] else two;
    if e.pending >= 3 then three + [Char3(e.wip)] else three
  }

  function Flushed(e: Encoder): (e': Encoder)
    requires |e.wip| == 3
    ensures Open(e')
  {
    if e.pending < 1 then e.(pending := 0) else Encoder(WithGroup(e), [0, 0, 0], 0)
  }

  function Added(e: Encoder, byte: bv8): (e': Encoder)
    requires Open(e)
    ensures Open(e')
  {
    var e1 := e.(wip := e.wip[e.pending := byte], pending := e.pending + 1);
    if e1.pending == 3 then Flushed(e1) else e1
  }

  function Appended(e: Encoder, bytes: seq<bv8>): (e': Encoder)
    requires Open(e)
    ensures Open(e')
    decreases |bytes|
  {
    if bytes == [] then e
    else Added(Appended(e, bytes[..|bytes| - 1]), bytes[|bytes| - 1])
  }

  /** Cutting the bytes into append calls makes no difference. */
  lemma {:induction false} AppendedInPieces(e: Encoder, a: seq<bv8>, b: seq<bv8>)
    requires Open(e)
    ensures Appended(Appended(e, a), b) == Appended(e, a + b)
    decreases |b|
  {
    if b == [] {
      assert a + b == a;
    } else {
      AppendedInPieces(e, a, b[..|b| - 1]);
      assert (a + b)[..|a + b| - 1] == a + b[..|b| - 1];
    }
  }

  function Whole(sec: seq<bv8>): seq<bv8> { sec[..|sec| - |sec| % 3] }

  /** The three cells after `sec` was streamed into them: the open group, then stale or cleared cells. */
  function Cells(stale: seq<bv8>, sec: seq<bv8>): (w: seq<bv8>)
    requires |stale| == 3
    ensures |w| == 3
  {
    CellsAt(stale, sec, |sec| % 3)
  }

  /** The same with the length `n` of the open group given. */
  function CellsAt(stale: seq<bv8>, sec: seq<bv8>, n: nat): (w: seq<bv8>)
    requires |stale| == 3 && n <= 2 && n <= |sec|
    ensures |w| == 3
  {
    sec[|sec| - n..] + (if |sec| < 3 then stale else [0, 0, 0])[n..]
  }

  /** The text a flush writes out of the cells. */
  function GroupText(w: seq<bv8>, pending: nat): seq<bv8>
    requires |w| == 3
  {
    if pending == 0 then []
    else if pending == 1 then Chars([Sextet0(w[0]), Sextet1(w[0], w[1])])
    else if pending == 2 then Chars([Sextet0(w[0]), Sextet1(w[0], w[1]), Sextet2(w[1], w[2])])
    else Chars([Sextet0(w[0]), Sextet1(w[0], w[1]), Sextet2(w[1], w[2]), Sextet3(w[2])])
  }

  lemma FlushedText(e: Encoder)
    requires |e.wip| == 3 && e.pending <= 3
    ensures Flushed(e).text == e.text + GroupText(e.wip, e.pending)
  {
    if e.pending >= 1 {
      TextJoins(e.text, Char0(e.wip), Char1(e.wip), Char2(e.wip), Char3(e.wip));
      GroupChars(e.wip, e.pending);
    }
  }

  lemma TextJoins(t: seq<bv8>, c0: bv8, c1: bv8, c2: bv8, c3: bv8)
    ensures t + [c0] + [c1] == t + [c0, c1]
    ensures t + [c0] + [c1] + [c2] == t + [c0, c1, c2]
    ensures t + [c0] + [c1] + [c2] + [c3] == t + [c0, c1, c2, c3]
  {
  }

  lemma GroupChars(w: seq<bv8>, pending: nat)
    requires |w| == 3 && 1 <= pending <= 3
    ensures GroupText(w, pending) ==
            if pending == 1 then [Char0(w), Char1(w)]
            else if pending == 2 then [Char0(w), Char1(w), Char2(w)]
            else [Char0(w), Char1(w), Char2(w), Char3(w)]
  {
  }

  lemma NextInGroup(m: nat)
    ensures (m + 1) % 3 == if m % 3 == 2 then 0 else m % 3 + 1
  {
  }

  lemma TailGrows(sec: seq<bv8>, byte: bv8, n: nat)
    requires n <= |sec|
    ensures (sec + [byte])[|sec| - n..] == sec[|sec| - n..] + [byte]
  {
  }

  lemma CellWritten(p: seq<bv8>, w: seq<bv8>, byte: bv8)
    requires |p| < |w|
    ensures p + [byte] + w[|p| + 1..] == (p + w[|p|..])[|p| := byte]
  {
  }

  lemma CellsAtGrow(stale: seq<bv8>, sec: seq<bv8>, byte: bv8, n: nat)
    requires |stale| == 3 && n <= 1 && n <= |sec| && (|sec| < 3 ==> |sec| == n)
    ensures CellsAt(stale, sec + [byte], n + 1) == CellsAt(stale, sec, n)[n := byte]
  {
    var w := if |sec| < 3 then stale else [0, 0, 0];
    TailGrows(sec, byte, n);
    CellWritten(sec[|sec| - n..], w, byte);
  }

  lemma CellsAtFull(stale: seq<bv8>, sec: seq<bv8>)
    requires |stale| == 3 && |sec| >= 3
    ensures CellsAt(stale, sec, 0) == [0, 0, 0]
  {
    assert sec[|sec|..] == [];
  }

  lemma PrefixKept(sec: seq<bv8>, byte: bv8, n: nat)
    requires n <= |sec|
    ensures (sec + [byte])[..n] == sec[..n]
  {
  }

  /** One more byte, with the length `n` of the open group before it given. */
  lemma CellsAtNext(stale: seq<bv8>, sec: seq<bv8>, byte: bv8, n: nat)
    requires |stale| == 3 && n <= 2 && n <= |sec| && (|sec| < 3 ==> |sec| == n)
    ensures CellsAt(stale, sec + [byte], if n == 2 then 0 else n + 1) ==
            if n == 2 then [0, 0, 0] else CellsAt(stale, sec, n)[n := byte]
    ensures (sec + [byte])[..|sec| - n] == sec[..|sec| - n]
  {
    if n == 2 {
      CellsAtFull(stale, sec + [byte]);
    } else {
      CellsAtGrow(stale, sec, byte, n);
    }
    PrefixKept(sec, byte, |sec| - n);
  }

  lemma OpenGroup(m: nat)
    ensures m % 3 <= m && (m < 3 ==> m % 3 == m)
  {
  }

  lemma CellsGrow(stale: seq<bv8>, sec: seq<bv8>, byte: bv8)
    requires |stale| == 3
    ensures var n := |sec| % 3;
            && |sec + [byte]| % 3 == (if n == 2 then 0 else n + 1)
            && Cells(stale, sec + [byte]) == (if n == 2 then [0, 0, 0] else Cells(stale, sec)[n := byte])
            && (n < 2 ==> Whole(sec + [byte]) == Whole(sec))
  {
    NextInGroup(|sec|);
    OpenGroup(|sec|);
    CellsGrowFrom(stale, sec, byte, |sec| % 3, sec + [byte]);
  }

  lemma CellsGrowFrom(stale: seq<bv8>, sec: seq<bv8>, byte: bv8, n: nat, longer: seq<bv8>)
    requires |stale| == 3 && longer == sec + [byte] && n <= 2 && n <= |sec| && (|sec| < 3 ==> |sec| == n)
    requires |sec| % 3 == n && |longer| % 3 == if n == 2 then 0 else n + 1
    ensures Cells(stale, longer) == if n == 2 then [0, 0, 0] else Cells(stale, sec)[n := byte]
    ensures n < 2 ==> Whole(longer) == Whole(sec)
  {
    CellsAtNext(stale, sec, byte, n);
  }

  /** The byte that fills a group turns the open group into whole text. */
  lemma GroupFills(stale: seq<bv8>, sec: seq<bv8>, byte: bv8)
    requires |stale| == 3 && |sec| % 3 == 2
    ensures Encode(Whole(sec)) + GroupText(Cells(stale, sec)[2 := byte], 3) == Encode(Whole(sec + [byte]))
  {
    var tail := sec[|sec| - 2..];
    assert sec + [byte] == Whole(sec) + (tail + [byte]);
    assert Whole(sec + [byte]) == sec + [byte];
    EncodeConcat(Whole(sec), tail + [byte]);
    var w := Cells(stale, sec)[2 := byte];
    assert w[0] == tail[0] && w[1] == tail[1] && w[2] == byte;
    assert ToSextets((tail + [byte])[3..]) == [];
    assert Encode(tail + [byte]) == GroupText(w, 3);
  }

  /** A flush completes the section: the whole groups already written and the open group. */
  lemma FlushCompletes(stale: seq<bv8>, sec: seq<bv8>)
    requires |stale| == 3
    ensures Encode(Whole(sec)) + GroupText(Cells(stale, sec), |sec| % 3) == StreamedText(stale, sec)
  {
    var n := |sec| % 3;
    var tail := sec[|sec| - n..];
    assert sec == Whole(sec) + tail;
    if |sec| < 3 {
      assert Whole(sec) == [] && tail == sec;
      assert Encode([]) == [];
    } else {
      EncodeConcat(Whole(sec), tail);
      assert GroupText(Cells(stale, sec), n) == Encode(tail);
    }
  }

  /** In mid-section the text holds the whole groups and the cells hold the open one. */
  lemma {:induction false} AppendedState(start: seq<bv8>, stale: seq<bv8>, sec: seq<bv8>)
    requires |stale| == 3
    ensures Appended(Encoder(start, stale, 0), sec)
            == Encoder(start + Encode(Whole(sec)), Cells(stale, sec), |sec| % 3)
  {
    if sec == [] {
      assert Encode(Whole([])) == [] && Cells(stale, []) == stale;
      assert start + [] == start;
    } else {
      var most, byte := sec[..|sec| - 1], sec[|sec| - 1];
      AppendedState(start, stale, most);
      assert most + [byte] == sec;
      AddedState(start, stale, most, byte);
    }
  }

  lemma AddedState(start: seq<bv8>, stale: seq<bv8>, sec: seq<bv8>, byte: bv8)
    requires |stale| == 3
    ensures Added(Encoder(start + Encode(Whole(sec)), Cells(stale, sec), |sec| % 3), byte)
            == Encoder(start + Encode(Whole(sec + [byte])), Cells(stale, sec + [byte]), |sec + [byte]| % 3)
  {
    CellsGrow(stale, sec, byte);
    if |sec| % 3 == 2 {
      GroupFills(stale, sec, byte);
      FlushedText(Encoder(start + Encode(Whole(sec)), Cells(stale, sec)[2 := byte], 3));
      ConcatAssociates(start, Encode(Whole(sec)), GroupText(Cells(stale, sec)[2 := byte], 3));
    }
  }

  /** A section streamed from any cells and flushed adds its streamed text and leaves cleared cells. */
  lemma SectionState(start: seq<bv8>, stale: seq<bv8>, sec: seq<bv8>)
    requires |stale| == 3
    ensures Flushed(Appended(Encoder(start, stale, 0), sec))
            == Encoder(start + StreamedText(stale, sec), if sec == [] then stale else [0, 0, 0], 0)
  {
    AppendedState(start, stale, sec);
    var e := Appended(Encoder(start, stale, 0), sec);
    FlushedText(e);
    FlushCompletes(stale, sec);
    ConcatAssociates(start, Encode(Whole(sec)), GroupText(Cells(stale, sec), |sec| % 3));
    assert |sec| % 3 == 0 && sec != [] ==> Cells(stale, sec) == [0, 0, 0];
    assert sec == [] ==> Cells(stale, sec) == stale;
  }

  // ---- Tokens

  /** The compact form: three base64url sections joined by dots (section 7.1 of RFC 7515). */
  function Token(header: seq<bv8>, payload: seq<bv8>, signature: seq<bv8>): seq<bv8> {
    Encode(header) + [DOT] + Encode(payload) + [DOT] + Encode(signature)
  }

  /** A token splits at its dots into exactly three parts, which decode to the three sections. */
  lemma TokenSplits(header: seq<bv8>, payload: seq<bv8>, signature: seq<bv8>)
    ensures var parts := Split(Token(header, payload, signature));
            && |parts| == 3 && parts[0] == Encode(header) && parts[1] == Encode(payload)
            && Decode(parts[0]) == Some(header)
            && Decode(parts[1]) == Some(payload)
            && Decode(parts[2]) == Some(signature)
  {
    var h, p, s := Encode(header), Encode(payload), Encode(signature);
    EncodeHasNoDot(header);
    EncodeHasNoDot(payload);
    EncodeHasNoDot(signature);
    SplitThree(h, p, s);
    DecodeInvertsEncode(header, h);
    DecodeInvertsEncode(payload, p);
    DecodeInvertsEncode(signature, s);
  }

  lemma SplitTwo(p: seq<bv8>, s: seq<bv8>)
    requires NoDot(p) && NoDot(s)
    ensures Split(p + [DOT] + s) == [p, s]
  {
    SplitFirst(s, []);
    SplitFirst(p, s);
    assert [p] + [s] == [p, s];
  }

  lemma SplitThree(h: seq<bv8>, p: seq<bv8>, s: seq<bv8>)
    requires NoDot(h) && NoDot(p) && NoDot(s)
    ensures Split(h + [DOT] + p + [DOT] + s) == [h, p, s]
  {
    var rest := p + [DOT] + s;
    SplitTwo(p, s);
    SplitFirst(h, rest);
    assert h + [DOT] + p + [DOT] + s == h + [DOT] + rest;
    assert [h] + [p, s] == [h, p, s];
  }

  /** The cells a section leaves behind. */
  function CellsAfter(stale: seq<bv8>, sec: seq<bv8>): seq<bv8> {
    if sec == [] then stale else [0, 0, 0]
  }

  /** What the builder has written when it signs. */
  function SignedText(stale: seq<bv8>, header: seq<bv8>, payload: seq<bv8>): seq<bv8>
    requires |stale| == 3
  {
    StreamedText(stale, header) + [DOT] + StreamedText(CellsAfter(stale, header), payload)
  }

  /** With a header of three bytes or more, that is what a signature has to cover (section 5.1 of RFC 7515). */
  lemma SignedTextExact(stale: seq<bv8>, header: seq<bv8>, payload: seq<bv8>)
    requires |stale| == 3 && |header| >= 3
    ensures SignedText(stale, header, payload) == Encode(header) + [DOT] + Encode(payload)
  {
    StreamedTextExact(stale, header);
    StreamedTextExact([0, 0, 0], payload);
  }

  /** What the builder writes for three sections, from cells `stale`. */
  function BuiltText(stale: seq<bv8>, header: seq<bv8>, payload: seq<bv8>, signature: seq<bv8>): seq<bv8>
    requires |stale| == 3
  {
    var w2 := CellsAfter(CellsAfter(stale, header), payload);
    SignedText(stale, header, payload) + [DOT] + StreamedText(w2, signature)
  }

  /** No stale bits reach the first section that is not empty. */
  predicate CleanStart(stale: seq<bv8>, header: seq<bv8>, payload: seq<bv8>, signature: seq<bv8>)
    requires |stale| == 3
  {
    StaleBitsHarmless(stale, if header != [] then |header| else if payload != [] then |payload| else |signature|)
  }

  lemma StreamedLength(stale: seq<bv8>, sec: seq<bv8>)
    requires |stale| == 3
    ensures |StreamedText(stale, sec)| == |Encode(sec)|
  {
  }

  /** The builder writes the token exactly when no stale bits reach its first section. */
  lemma BuiltTextExact(stale: seq<bv8>, header: seq<bv8>, payload: seq<bv8>, signature: seq<bv8>)
    requires |stale| == 3
    ensures BuiltText(stale, header, payload, signature) == Token(header, payload, signature)
            <==> CleanStart(stale, header, payload, signature)
  {
    var w1 := CellsAfter(stale, header);
    var w2 := CellsAfter(w1, payload);
    StreamedTextExact(stale, header);
    StreamedTextExact(w1, payload);
    StreamedTextExact(w2, signature);
    StreamedLength(stale, header);
    StreamedLength(w1, payload);
    StreamedLength(w2, signature);
    JoinInjective(StreamedText(stale, header), StreamedText(w1, payload), StreamedText(w2, signature),
                  Encode(header), Encode(payload), Encode(signature));
  }

  lemma JoinInjective(a: seq<bv8>, b: seq<bv8>, c: seq<bv8>, a': seq<bv8>, b': seq<bv8>, c': seq<bv8>)
    requires |a| == |a'| && |b| == |b'| && |c| == |c'|
    ensures a + [DOT] + b + [DOT] + c == a' + [DOT] + b' + [DOT] + c' <==> a == a' && b == b' && c == c'
  {
    var t, t' := a + [DOT] + b + [DOT] + c, a' + [DOT] + b' + [DOT] + c';
    if t == t' {
      assert a == t[..|a|] && a' == t'[..|a|];
      assert b == t[|a| + 1..|a| + 1 + |b|] && b' == t'[|a| + 1..|a| + 1 + |b|];
      assert c == t[|a| + 2 + |b|..] && c' == t'[|a| + 2 + |b|..];
    }
  }

  function Joined(chunks: seq<seq<bv8>>): seq<bv8> {
    if chunks == [] then [] else Joined(chunks[..|chunks| - 1]) + chunks[|chunks| - 1]
  }

  class Builder {
    const buffer: array<bv8>
    /** `buf - base` */
    var pos: nat
    var len: nat
    var overflowed: bool
    /** The three pending-byte cells. */
    var wip: seq<bv8>
    var pending: nat
    /** Everything the builder was asked to write, had the buffer no end. */
    ghost var text: seq<bv8>

    ghost predicate Valid()
      reads this, buffer
    {
      && |wip| == 3 && pending <= 3
      && pos + len == buffer.Length
      && pos <= |text| && buffer[..pos] == text[..pos]
      && (overflowed ==> len < 2 && |text| > pos)
      && (!overflowed ==> |text| == pos)
      && (pos > 0 ==> pos < buffer.Length && buffer[pos] == 0)
    }

    /** The flag is set exactly when the text and its terminator do not fit. */
    lemma OverflowExact()
      requires Valid()
      ensures overflowed <==> text != [] && |text| + 1 > buffer.Length
    {
    }

    ghost function State(): Encoder
      reads this
    {
      Encoder(text, wip, pending)
    }

    method Outch(ch: bv8)
      requires Valid()
      modifies this`pos, this`len, this`overflowed, this`text, buffer
      ensures Valid() && text == old(text) + [ch]
    {
      text := text + [ch];
      if overflowed {
        return;
      }
      if len < 2 {
        overflowed := true;
        return;
      }
      buffer[pos] := ch;
      pos := pos + 1;
      len := len - 1;
      buffer[pos] := 0;
    }

    method Flush()
      requires Valid()
      modifies this, buffer
      ensures Valid() && State() == Flushed(old(State()))
    {
      if pending < 1 {
        return;
      }
      OutGroup(Char0(wip), Char1(wip), Char2(wip), Char3(wip));
      pending := 0;
      wip := [0, 0, 0];
    }

    /** The characters of the open group: two, three or four of them. */
    method OutGroup(c0: bv8, c1: bv8, c2: bv8, c3: bv8)
      requires Valid() && pending >= 1
      modifies this`pos, this`len, this`overflowed, this`text, buffer
      ensures Valid()
      ensures text == var two := old(text) + [c0] + [c1];
                      var three := if pending >= 2 then two + [c2] else two;
                      if pending >= 3 then three + [c3] else three
    {
      Outch(c0);
      Outch(c1);
      if pending >= 2 {
        Outch(c2);
      }
      if pending >= 3 {
        Outch(c3);
      }
    }

    method AddByte(byte: bv8)
      requires Valid() && pending <= 2
      modifies this, buffer
      ensures Valid() && State() == Added(old(State()), byte)
    {
      wip := wip[pending := byte];
      pending := pending + 1;
      if pending == 3 {
        Flush();
      }
    }

    /** The callback of the JSON encoder; bytes may come in any number of calls. */
    method AppendBytes(bytes: seq<bv8>)
      requires Valid() && pending <= 2
      modifies this, buffer
      ensures Valid() && State() == Appended(old(State()), bytes)
    {
      var i := 0;
      while i < |bytes|
        invariant 0 <= i <= |bytes| && Valid() && pending <= 2
        invariant State() == Appended(old(State()), bytes[..i])
      {
        AddByte(bytes[i]);
        assert bytes[..i + 1][..i] == bytes[..i];
        i := i + 1;
      }
      assert bytes[..i] == bytes;
    }

    /** `json_obj_encode` handing its output over piece by piece. */
    method AppendChunks(chunks: seq<seq<bv8>>)
      requires Valid() && pending <= 2
      modifies this, buffer
      ensures Valid() && State() == Appended(old(State()), Joined(chunks))
    {
      var i := 0;
      while i < |chunks|
        invariant 0 <= i <= |chunks| && Valid() && pending <= 2
        invariant State() == Appended(old(State()), Joined(chunks[..i]))
      {
        AppendBytes(chunks[i]);
        AppendedInPieces(old(State()), Joined(chunks[..i]), chunks[i]);
        assert chunks[..i + 1][..i] == chunks[..i];
        i := i + 1;
      }
      assert chunks[..i] == chunks;
    }

    /** Bytes streamed in any pieces and flushed; a section of its own if no group was open. */
    method AddSection(chunks: seq<seq<bv8>>)
      requires Valid() && pending <= 2
      modifies this, buffer
      ensures Valid() && pending == 0 && State() == Flushed(Appended(old(State()), Joined(chunks)))
      ensures old(pending) == 0 ==>
                && text == old(text) + StreamedText(old(wip), Joined(chunks))
                && wip == if Joined(chunks) == [] then old(wip) else [0, 0, 0]
    {
      ghost var e := State();
      AppendChunks(chunks);
      Flush();
      if e.pending == 0 {
        SectionState(e.text, e.wip, Joined(chunks));
      }
    }

    /** `jwt_init_builder` over a caller's buffer; the pending-byte cells are not cleared. */
    constructor (buffer: array<bv8>, cells: seq<bv8>)
      requires |cells| == 3
      ensures Valid() && this.buffer == buffer && wip == cells
      ensures pos == 0 && !overflowed && pending == 0 && text == []
    {
      this.buffer := buffer;
      this.wip := cells;
      pos := 0;
      len := buffer.Length;
      overflowed := false;
      pending := 0;
      text := [];
    }

    /** `jwt_add_header`: without a flush when the JSON encoder fails. */
    method AddHeader(chunks: seq<seq<bv8>>, jsonResult: int)
      requires Valid() && pending == 0
      modifies this, buffer
      ensures Valid()
      ensures jsonResult == 0 ==>
                && pending == 0 && text == old(text) + StreamedText(old(wip), Joined(chunks))
                && wip == if Joined(chunks) == [] then old(wip) else [0, 0, 0]
      ensures jsonResult != 0 ==> State() == Appended(old(State()), Joined(chunks))
    {
      if jsonResult != 0 {
        AppendChunks(chunks);
        return;
      }
      AddSection(chunks);
    }

    /** Also after a header whose JSON encoder failed, which may leave a group open: its bytes then run on
        into the payload's. */
    method AddPayload(chunks: seq<seq<bv8>>, jsonResult: int) returns (res: int)
      requires Valid() && pending <= 2
      modifies this, buffer
      ensures Valid() && pending == 0 && res == jsonResult
      ensures State() == Flushed(Appended(old(State()).(text := old(text) + [DOT]), Joined(chunks)))
      ensures old(pending) == 0 ==>
                && text == old(text) + [DOT] + StreamedText(old(wip), Joined(chunks))
                && wip == if Joined(chunks) == [] then old(wip) else [0, 0, 0]
    {
      Outch(DOT);
      AddSection(chunks);
      res := jsonResult;
    }

    /** The ECDSA `jwt_sign`: `signer` answers with the signature of the text in the buffer, `prngResult` and
        `signed` are what else the crypto library answers. */
    method Sign(signer: seq<bv8> -> seq<bv8>, prngResult: int, signed: bool) returns (res: int, input: seq<bv8>)
      requires Valid() && pending <= 2
      modifies this, buffer
      ensures Valid()
      ensures input == old(buffer[..pos]) <= old(text) && (!old(overflowed) ==> input == old(text))
      ensures res == if prngResult != 0 then prngResult else if !signed then -22 else 0
      ensures State() == if res == 0 then Flushed(Appended(old(State()).(text := old(text) + [DOT]), signer(input)))
                         else old(State())
      ensures res == 0 && old(pending) == 0 ==> text == old(text) + [DOT] + StreamedText(old(wip), signer(input))
    {
      input := buffer[..pos];
      if prngResult != 0 {
        return prngResult, input;
      }
      if !signed {
        return -EINVAL, input;
      }
      var signature := signer(input);
      Outch(DOT);
      AddSection([signature]);
      assert Joined([signature]) == signature;
      res := 0;
    }
  }

  /** The whole builder life: header, payload and signature, in this order. `input` is what was signed. */
  method WriteSections(buffer: array<bv8>, cells: seq<bv8>, header: seq<seq<bv8>>, payload: seq<seq<bv8>>,
                       signer: seq<bv8> -> seq<bv8>)
    returns (b: Builder, res: int, input: seq<bv8>)
    requires |cells| == 3
    modifies buffer
    ensures fresh(b) && b.Valid() && b.buffer == buffer && res == 0
    ensures b.text == BuiltText(cells, Joined(header), Joined(payload), signer(input))
    ensures input <= SignedText(cells, Joined(header), Joined(payload))
    ensures |SignedText(cells, Joined(header), Joined(payload))| < buffer.Length ==>
              input == SignedText(cells, Joined(header), Joined(payload))
  {
    b := new Builder(buffer, cells);
    b.AddHeader(header, 0);
    assert b.text == StreamedText(cells, Joined(header));
    var _ := b.AddPayload(payload, 0);
    assert b.text == SignedText(cells, Joined(header), Joined(payload));
    b.OverflowExact();
    res, input := b.Sign(signer, 0, true);
  }

  /** Building a token over a caller's buffer, the pending-byte cells holding whatever its memory holds. With a
      header of three bytes or more, as every JSON header with a member is, the text is always the token, and its
      third part is the signature of the first two with their dot.
      `res` is 0 even when the token did not fit: only the flag tells. */
  method BuildToken(buffer: array<bv8>, cells: seq<bv8>, header: seq<seq<bv8>>, payload: seq<seq<bv8>>,
                    signer: seq<bv8> -> seq<bv8>)
    returns (b: Builder, res: int, input: seq<bv8>)
    requires |cells| == 3
    modifies buffer
    ensures fresh(b) && b.Valid() && b.buffer == buffer && res == 0
    ensures b.text == Token(Joined(header), Joined(payload), signer(input))
            <==> CleanStart(cells, Joined(header), Joined(payload), signer(input))
    ensures |Joined(header)| >= 3 ==> b.text == Token(Joined(header), Joined(payload), signer(input))
    ensures b.overflowed <==> |b.text| + 1 > buffer.Length
    ensures !b.overflowed ==> buffer[..b.pos] == b.text && b.pos < buffer.Length && buffer[b.pos] == 0
    ensures b.overflowed ==> buffer[..b.pos] < b.text
    ensures |Joined(header)| >= 3 && !b.overflowed ==>
              var parts := Split(buffer[..b.pos]);
              && |parts| == 3 && Decode(parts[0]) == Some(Joined(header)) && Decode(parts[1]) == Some(Joined(payload))
              && Decode(parts[2]) == Some(signer(parts[0] + [DOT] + parts[1]))
  {
    b, res, input := WriteSections(buffer, cells, header, payload, signer);
    b.OverflowExact();
    BuiltTextExact(cells, Joined(header), Joined(payload), signer(input));
    TokenSplits(Joined(header), Joined(payload), signer(input));
    if |Joined(header)| >= 3 {
      SignedTextExact(cells, Joined(header), Joined(payload));
    }
  }
}
