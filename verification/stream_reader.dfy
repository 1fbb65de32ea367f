/** The console's incremental reader of newline-delimited JSON: a streaming UTF-8 decoder in front of a line
    splitter, both of which carry an unfinished rest from one chunk to the next. */
module StreamReader {
  import opened Utf8
  import opened WhiteSpace

  const NL: Scalar := 0x0A
  const REPLACEMENT: Scalar := 0xFFFD

  // What String.prototype.trim removes
  predicate IsTrimmed(c: Scalar) {
    9 <= c <= 13 || c in {0x20, 0xA0, 0x1680, 0x2028, 0x2029, 0x202F, 0x205F, 0x3000, 0xFEFF} || 0x2000 <= c <= 0x200A
  }

  lemma TrimmedAre(c: Scalar)
    ensures IsTrimmed(c) <==>
              c in {9, 10, 11, 12, 13, 0x20, 0xA0, 0x1680,
                    0x2000, 0x2001, 0x2002, 0x2003, 0x2004, 0x2005, 0x2006, 0x2007, 0x2008, 0x2009, 0x200A,
                    0x2028, 0x2029, 0x202F, 0x205F, 0x3000, 0xFEFF}
  {}

  function Trim(t: Text): Text { Strip(t, IsTrimmed) }

  // ---- The streaming decoder ----

  // The character a decided step stands for; malformed bytes become U+FFFD
  function Decoded(step: Step): Scalar
    requires !step.Short?
  {
    if step.Char? then step.c else REPLACEMENT
  }

  // A decoding step takes at least one of the bytes it decides on, and more bytes do not change its decision.
  ghost predicate Progresses(step: seq<Byte> -> Step) {
    forall bs :: !step(bs).Short? ==> 1 <= step(bs).n <= |bs|
  }

  ghost predicate Stable(step: seq<Byte> -> Step) {
    forall a, b :: step(a) != Short ==> step(a + b) == step(a)
  }

  // The text decoded step by step, and the bytes of an unfinished character
  function FeedWith(step: seq<Byte> -> Step, bs: seq<Byte>): (Text, seq<Byte>)
    requires Progresses(step)
    decreases |bs|
  {
    var s := step(bs);
    if s.Short? then ([], bs)
    else var (t, rest) := FeedWith(step, bs[s.n..]); ([Decoded(s)] + t, rest)
  }

  // decoder.decode(bytes, {stream: true})
  function Feed(bs: seq<Byte>): (Text, seq<Byte>) {
    FeedWith(DecodeStep, bs)
  }

  lemma {:induction false} FeedWithInTwo(step: seq<Byte> -> Step, a: seq<Byte>, b: seq<Byte>)
    requires Progresses(step) && Stable(step)
    ensures var (t, rest) := FeedWith(step, a); var (t', rest') := FeedWith(step, rest + b);
            FeedWith(step, a + b) == (t + t', rest')
    decreases |a|
  {
    var s := step(a);
    if s.Short? {
      assert [] + FeedWith(step, a + b).0 == FeedWith(step, a + b).0;
    } else {
      assert step(a + b) == s && (a + b)[s.n..] == a[s.n..] + b;
      FeedWithInTwo(step, a[s.n..], b);
      var (t, rest) := FeedWith(step, a[s.n..]);
      var t' := FeedWith(step, rest + b).0;
      assert [Decoded(s)] + (t + t') == ([Decoded(s)] + t) + t';
    }
  }

  // Decoding in two goes, carrying the rest, is decoding in one.
  lemma FeedInTwo(a: seq<Byte>, b: seq<Byte>)
    ensures Feed(a + b) == (Feed(a).0 + Feed(Feed(a).1 + b).0, Feed(Feed(a).1 + b).1)
  {
    assert Stable(DecodeStep) by {
      forall x: seq<Byte>, y: seq<Byte> | DecodeStep(x) != Short ensures DecodeStep(x + y) == DecodeStep(x) {
        DecidedStays(x, y);
      }
    }
    FeedWithInTwo(DecodeStep, a, b);
  }

  // Malformed bytes come out as one replacement character, and decoding goes on behind them.
  lemma FeedBad(bs: seq<Byte>)
    requires DecodeStep(bs).Bad?
    ensures var rest := bs[DecodeStep(bs).n..]; Feed(bs) == ([0xFFFD] + Feed(rest).0, Feed(rest).1)
  {}

  // Only the beginning of a character is held back.
  lemma {:induction false} CarryIsUnfinished(bs: seq<Byte>)
    ensures DecodeStep(Feed(bs).1) == Short
    decreases |bs|
  {
    if DecodeStep(bs) != Short { CarryIsUnfinished(bs[DecodeStep(bs).n..]); }
  }

  lemma FeedChar(bs: seq<Byte>, c: Scalar, n: nat)
    requires DecodeStep(bs) == Char(c, n) && n <= |bs|
    ensures Feed(bs) == ([c] + Feed(bs[n..]).0, Feed(bs[n..]).1)
  {}

  lemma {:induction false} FeedEncoded(t: Text)
    ensures Feed(Encode(t)) == (t, [])
  {
    if t == [] {
    } else {
      var one, rest := EncodeOne(t[0]), Encode(t[1..]);
      DecodeEncoded(t[0], rest);
      FeedChar(one + rest, t[0], |one|);
      assert (one + rest)[|one|..] == rest;
      FeedEncoded(t[1..]);
      assert t == [t[0]] + t[1..];
    }
  }

  // ---- The line splitter ----

  // The complete lines of a text, without their newlines, and the unfinished rest
  function Lines(t: Text, line: Text): (seq<Text>, Text) {
    if t == [] then ([], line)
    else if t[0] == NL then var (ls, rest) := Lines(t[1..], []); ([line] + ls, rest)
    else Lines(t[1..], line + [t[0]])
  }

  // Each of these lines with its newline
  function Terminated(ls: seq<Text>): Text {
    if ls == [] then [] else ls[0] + [0x0A] + Terminated(ls[1..])
  }

  lemma FirstTerminated(t: Text, line: Text, ls: seq<Text>, rest: Text)
    requires t != [] && t[0] == 0x0A && Terminated(ls) + rest == t[1..]
    ensures Terminated([line] + ls) + rest == line + t
  {
    assert ([line] + ls)[1..] == ls;
    assert line + [0x0A] + Terminated(ls) + rest == line + [0x0A] + (Terminated(ls) + rest);
    assert line + [0x0A] + t[1..] == line + t;
  }

  // Splitting loses and adds nothing: the lines with their newlines, and then the rest, are the text.
  lemma {:induction false} LinesAreTheText(t: Text, line: Text)
    requires 0x0A !in line
    ensures var (ls, rest) := Lines(t, line);
            Terminated(ls) + rest == line + t && 0x0A !in rest && forall l | l in ls :: 0x0A !in l
  {
    if t == [] {
      assert Terminated([]) + line == line + t;
    } else if t[0] == NL {
      LinesAreTheText(t[1..], []);
      assert [] + t[1..] == t[1..];
      FirstTerminated(t, line, Lines(t[1..], []).0, Lines(t[1..], []).1);
    } else {
      LinesAreTheText(t[1..], line + [t[0]]);
      assert line + [t[0]] + t[1..] == line + t;
    }
  }

  // The trimmed, non-empty lines that parse as JSON, in order; what parses is up to the JSON library.
  function Messages(ls: seq<Text>, parses: Text -> bool): seq<Text> {
    if ls == [] then []
    else
      var front, line := Messages(ls[..|ls| - 1], parses), Trim(ls[|ls| - 1]);
      if line != [] && parses(line) then front + [line] else front
  }

  lemma {:induction false} LinesInTwo(a: Text, b: Text, line: Text)
    ensures var (ls, rest) := Lines(a, line); var (ls', rest') := Lines(b, rest);
            Lines(a + b, line) == (ls + ls', rest')
  {
    if a == [] {
      assert a + b == b;
      assert [] + Lines(b, line).0 == Lines(b, line).0;
    } else {
      assert (a + b)[1..] == a[1..] + b;
      if a[0] == NL {
        LinesInTwo(a[1..], b, []);
        var (ls, rest) := Lines(a[1..], []);
        assert [line] + (ls + Lines(b, rest).0) == ([line] + ls) + Lines(b, rest).0;
      } else {
        LinesInTwo(a[1..], b, line + [a[0]]);
      }
    }
  }

  lemma {:induction false} LinesOfPlain(t: Text, line: Text)
    requires NL !in t
    ensures Lines(t, line) == ([], line + t)
  {
    if t == [] {
      assert line + t == line;
    } else {
      LinesOfPlain(t[1..], line + [t[0]]);
      assert line + [t[0]] + t[1..] == line + t;
    }
  }

  lemma {:induction false} RestHasNoNewline(t: Text, line: Text)
    requires NL !in line
    ensures NL !in Lines(t, line).1
  {
    if t == [] {
    } else {
      RestHasNoNewline(t[1..], if t[0] == NL then [] else line + [t[0]]);
    }
  }

  lemma {:induction false} MessagesInTwo(a: seq<Text>, b: seq<Text>, parses: Text -> bool)
    ensures Messages(a + b, parses) == Messages(a, parses) + Messages(b, parses)
  {
    if b == [] {
      assert a + b == a && Messages(a, parses) + [] == Messages(a, parses);
    } else {
      var front, last := b[..|b| - 1], b[|b| - 1];
      assert (a + b)[..|a + b| - 1] == a + front;
      MessagesInTwo(a, front, parses);
      assert Messages(a, parses) + Messages(front, parses) + [Trim(last)] ==
          Messages(a, parses) + (Messages(front, parses) + [Trim(last)]);
    }
  }

  // ---- The reader ----

  // What a reader has emitted after receiving these bytes, in whatever chunks
  function Emitted(received: seq<Byte>, parses: Text -> bool): seq<Text> {
    Messages(Lines(Feed(received).0, []).0, parses)
  }

  // Lines do not care whether the unfinished rest is carried beside the text or in front of it.
  lemma LinesWithBuffer(buf: Text, text: Text)
    requires NL !in buf
    ensures Lines(buf + text, []) == Lines(text, buf)
  {
    LinesOfPlain(buf, []);
    assert [] + buf == buf;
    LinesInTwo(buf, text, []);
    assert [] + Lines(text, buf).0 == Lines(text, buf).0;
  }

  // One more chunk adds the messages of the lines it completes.
  lemma ReadAdvances(received: seq<Byte>, chunk: seq<Byte>, parses: Text -> bool)
    ensures var (text, rest) := Feed(Feed(received).1 + chunk); var buf := Lines(Feed(received).0, []).1;
            && Feed(received + chunk).1 == rest
            && Lines(Feed(received + chunk).0, []).1 == Lines(buf + text, []).1
            && Emitted(received + chunk, parses) ==
                Emitted(received, parses) + Messages(Lines(buf + text, []).0, parses)
            && NL !in Lines(buf + text, []).1
  {
    FeedInTwo(received, chunk);
    var before, text := Feed(received).0, Feed(Feed(received).1 + chunk).0;
    var buf := Lines(before, []).1;
    LinesInTwo(before, text, []);
    RestHasNoNewline(before, []);
    LinesWithBuffer(buf, text);
    RestHasNoNewline(text, buf);
    MessagesInTwo(Lines(before, []).0, Lines(text, buf).0, parses);
  }

  // The lines of all are those done and those still in buf.
  ghost predicate SplitSoFar(all: Text, done: seq<Text>, buf: Text) {
    Lines(all, []) == (done + Lines(buf, []).0, Lines(buf, []).1)
  }

  lemma SplitStart(all: Text, before: seq<Text>, parses: Text -> bool)
    ensures SplitSoFar(all, [], all) && before + Messages([], parses) == before
  {
    assert [] + Lines(all, []).0 == Lines(all, []).0;
  }

  lemma {:induction false} FirstLineFrom(t: Text, nl: nat, line: Text)
    requires nl < |t| && t[nl] == NL && NL !in t[..nl]
    ensures Lines(t, line) == ([line + t[..nl]] + Lines(t[nl + 1..], []).0, Lines(t[nl + 1..], []).1)
  {
    if nl == 0 {
      assert line + t[..0] == line;
    } else {
      assert t[0] == t[..nl][0] && t[1..][..nl - 1] == t[..nl][1..] && t[1..][nl..] == t[nl + 1..];
      FirstLineFrom(t[1..], nl - 1, line + [t[0]]);
      assert line + [t[0]] + t[1..][..nl - 1] == line + t[..nl];
    }
  }

  lemma FirstLine(t: Text, nl: nat)
    requires nl < |t| && t[nl] == NL && NL !in t[..nl]
    ensures Lines(t, []) == ([t[..nl]] + Lines(t[nl + 1..], []).0, Lines(t[nl + 1..], []).1)
  {
    FirstLineFrom(t, nl, []);
    assert [] + t[..nl] == t[..nl];
  }

  lemma SplitTurn(all: Text, done: seq<Text>, buf: Text, nl: nat, before: seq<Text>, parses: Text -> bool)
    requires SplitSoFar(all, done, buf) && nl < |buf| && buf[nl] == NL && NL !in buf[..nl]
    ensures SplitSoFar(all, done + [buf[..nl]], buf[nl + 1..])
    ensures var line := Trim(buf[..nl]); var before' := before + Messages(done, parses);
            before + Messages(done + [buf[..nl]], parses) ==
            if line != [] && parses(line) then before' + [line] else before'
  {
    FirstLine(buf, nl);
    assert (done + [buf[..nl]])[..|done|] == done;
    assert done + ([buf[..nl]] + Lines(buf[nl + 1..], []).0) == (done + [buf[..nl]]) + Lines(buf[nl + 1..], []).0;
  }

  lemma SplitEnd(all: Text, done: seq<Text>, buf: Text)
    requires SplitSoFar(all, done, buf) && NL !in buf
    ensures Lines(all, []) == (done, buf)
  {
    LinesOfPlain(buf, []);
    assert [] + buf == buf && done + [] == done;
  }

  function IndexOf(t: Text, c: Scalar): (i: nat)
    requires c in t
    ensures i < |t| && t[i] == c && c !in t[..i]
  {
    if t[0] == c then 0 else 1 + IndexOf(t[1..], c)
  }

  class Reader {
    const parses: Text -> bool
    var carry: seq<Byte>
    var buf: Text
    var messages: seq<Text>
    ghost var received: seq<Byte>

    constructor (parses: Text -> bool)
      ensures this.parses == parses && Valid() && received == []
    {
      this.parses, carry, buf, messages, received := parses, [], [], [], [];
    }

    // Carry, buffer and messages are those of all the bytes received; the buffer never holds a newline.
    ghost predicate Valid()
      reads this
    {
      && carry == Feed(received).1
      && buf == Lines(Feed(received).0, []).1
      && messages == Emitted(received, parses)
      && NL !in buf
    }

    method Read(chunk: seq<Byte>)
      requires Valid()
      modifies this
      ensures Valid() && received == old(received) + chunk
    {
      ReadAdvances(received, chunk, parses);
      var (text, rest) := Feed(carry + chunk);
      carry := rest;
      SplitBuffer(buf + text);
      received := received + chunk;
    }

    // The inner loop: take lines off the front of the buffer while it holds a newline.
    method SplitBuffer(all: Text)
      modifies this`buf, this`messages
      ensures (messages, buf) == (old(messages) + Messages(Lines(all, []).0, parses), Lines(all, []).1)
    {
      buf := all;
      ghost var done: seq<Text> := [];
      ghost var before := messages;
      SplitStart(all, before, parses);
      while NL in buf
        invariant SplitSoFar(all, done, buf) && messages == before + Messages(done, parses)
        decreases |buf|
      {
        var nl := IndexOf(buf, NL);
        var line := Trim(buf[..nl]);
        SplitTurn(all, done, buf, nl, before, parses);
        done := done + [buf[..nl]];
        buf := buf[nl + 1..];
        if line != [] && parses(line) {
          messages := messages + [line];
        }
      }
      SplitEnd(all, done, buf);
    }
  }

  function Concat(chunks: seq<seq<Byte>>): seq<Byte> {
    if chunks == [] then [] else Concat(chunks[..|chunks| - 1]) + chunks[|chunks| - 1]
  }

  // Chunking does not matter: what is emitted depends only on the concatenated bytes, well formed or not.
  method OpenStream(chunks: seq<seq<Byte>>, parses: Text -> bool) returns (messages: seq<Text>)
    ensures messages == Emitted(Concat(chunks), parses)
  {
    var reader := new Reader(parses);
    for i := 0 to |chunks|
      invariant reader.Valid() && reader.parses == parses && reader.received == Concat(chunks[..i])
    {
      assert chunks[..i + 1][..i] == chunks[..i];
      reader.Read(chunks[i]);
    }
    assert chunks[..|chunks|] == chunks;
    messages := reader.messages;
  }

  // ---- A server that ends every document with a newline ----

  // A JSON document as the server writes it: no newline in it, no white space around it, and it parses.
  predicate IsDocument(d: Text, parses: Text -> bool) {
    0x0A !in d && d != [] && !IsTrimmed(d[0]) && !IsTrimmed(d[|d| - 1]) && parses(d)
  }

  function Ndjson(docs: seq<Text>): Text {
    if docs == [] then [] else Ndjson(docs[..|docs| - 1]) + (docs[|docs| - 1] + [0x0A])
  }

  lemma OneLine(d: Text)
    requires NL !in d
    ensures Lines(d + [NL], []) == ([d], [])
  {
    var line := d + [NL];
    assert line[..|d|] == d && line[|d| + 1..] == [];
    FirstLine(line, |d|);
    assert [d] + [] == [d];
  }

  lemma CompleteLines(a: Text, b: Text, ls: seq<Text>, ls': seq<Text>)
    requires Lines(a, []) == (ls, []) && Lines(b, []) == (ls', [])
    ensures Lines(a + b, []) == (ls + ls', [])
  {
    LinesInTwo(a, b, []);
  }

  lemma {:induction false} NdjsonLines(docs: seq<Text>)
    requires forall d | d in docs :: NL !in d
    ensures Lines(Ndjson(docs), []) == (docs, [])
  {
    if docs == [] {
    } else {
      var front, d := docs[..|docs| - 1], docs[|docs| - 1];
      NdjsonLines(front);
      OneLine(d);
      CompleteLines(Ndjson(front), d + [NL], front, [d]);
      assert docs == front + [d];
    }
  }

  lemma {:induction false} DocumentsAreMessages(docs: seq<Text>, parses: Text -> bool)
    requires forall d | d in docs :: IsDocument(d, parses)
    ensures Messages(docs, parses) == docs
  {
    if docs == [] {
    } else {
      var front, d := docs[..|docs| - 1], docs[|docs| - 1];
      assert d in docs && docs == front + [d];
      DocumentsAreMessages(front, parses);
      assert Trim(d) == d;
    }
  }

  // The client gets exactly the server's documents, in order, however the network cuts the bytes ...
  lemma ClientGetsTheDocuments(docs: seq<Text>, chunks: seq<seq<Byte>>, parses: Text -> bool)
    requires (forall d | d in docs :: IsDocument(d, parses)) && Concat(chunks) == Encode(Ndjson(docs))
    ensures Emitted(Concat(chunks), parses) == docs
  {
    FeedEncoded(Ndjson(docs));
    NdjsonLines(docs);
    DocumentsAreMessages(docs, parses);
  }

  // ... and at every moment before that, the first few of them.
  lemma ClientGetsAPrefix(docs: seq<Text>, n: nat, parses: Text -> bool)
    requires (forall d | d in docs :: IsDocument(d, parses)) && n <= |Encode(Ndjson(docs))|
    ensures Emitted(Encode(Ndjson(docs))[..n], parses) <= docs
  {
    var all := Encode(Ndjson(docs));
    var a, b := all[..n], all[n..];
    assert all == a + b;
    FeedInTwo(a, b);
    FeedEncoded(Ndjson(docs));
    NdjsonLines(docs);
    DocumentsAreMessages(docs, parses);
    var text, more := Feed(a).0, Feed(Feed(a).1 + b).0;
    LinesInTwo(text, more, []);
    MessagesInTwo(Lines(text, []).0, Lines(more, Lines(text, []).1).0, parses);
  }
}
