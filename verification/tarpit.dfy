/** The byte cap on tarpit responses. */
module Tarpit {
  import opened Utf8

  // bytes.decode("utf-8", errors="ignore")
  function DecodeIgnore(bs: seq<Byte>): Text
    decreases |bs|
  {
    match DecodeStep(bs)
    case Char(c, n) => [c] + DecodeIgnore(bs[n..])
    case Bad(n) => DecodeIgnore(bs[n..])
    case Short => []
  }

  function Cap(text: Text, max: nat): Text {
    var encoded := Encode(text);
    if |encoded| <= max then text else DecodeIgnore(encoded[..max])
  }

  // How many code points fit the budget
  function Fit(text: Text, max: nat): (k: nat)
    ensures k <= |text|
  {
    if text == [] || |EncodeOne(text[0])| > max then 0 else 1 + Fit(text[1..], max - |EncodeOne(text[0])|)
  }

  // A cut after the first character leaves it, and cuts the rest.
  lemma CutAfterFirst(c: Scalar, rest: seq<Byte>, cut: nat)
    requires cut <= |rest|
    ensures DecodeIgnore((EncodeOne(c) + rest)[..|EncodeOne(c)| + cut]) == [c] + DecodeIgnore(rest[..cut])
  {
    var one := EncodeOne(c);
    assert (one + rest)[..|one| + cut] == one + rest[..cut];
    DecodeEncoded(c, rest[..cut]);
    assert (one + rest[..cut])[|one|..] == rest[..cut];
  }

  // A cut within the first character leaves nothing.
  lemma CutWithinFirst(c: Scalar, rest: seq<Byte>, cut: nat)
    requires cut < |EncodeOne(c)|
    ensures DecodeIgnore((EncodeOne(c) + rest)[..cut]) == []
  {
    assert (EncodeOne(c) + rest)[..cut] == EncodeOne(c)[..cut];
    CutIsShort(c, cut);
  }

  lemma FitNext(text: Text, max: nat)
    requires text != [] && |EncodeOne(text[0])| <= max
    ensures text[..Fit(text, max)] == [text[0]] + text[1..][..Fit(text[1..], max - |EncodeOne(text[0])|)]
  {}

  lemma CutAfterFirstOf(text: Text, max: nat)
    requires text != [] && |EncodeOne(text[0])| <= max <= |Encode(text)|
    ensures DecodeIgnore(Encode(text)[..max]) ==
            [text[0]] + DecodeIgnore(Encode(text[1..])[..max - |EncodeOne(text[0])|])
  {
    CutAfterFirst(text[0], Encode(text[1..]), max - |EncodeOne(text[0])|);
  }

  ghost predicate CutsRight(text: Text, max: nat)
    requires max <= |Encode(text)|
  {
    DecodeIgnore(Encode(text)[..max]) == text[..Fit(text, max)]
  }

  lemma CutsRightNext(text: Text, max: nat)
    requires text != [] && |EncodeOne(text[0])| <= max <= |Encode(text)|
    requires CutsRight(text[1..], max - |EncodeOne(text[0])|)
    ensures CutsRight(text, max)
  {
    CutAfterFirstOf(text, max);
    FitNext(text, max);
  }

  lemma {:induction false} DecodeCut(text: Text, max: nat)
    requires max <= |Encode(text)|
    ensures CutsRight(text, max)
  {
    if text == [] {
    } else if |EncodeOne(text[0])| > max {
      CutWithinFirst(text[0], Encode(text[1..]), max);
    } else {
      DecodeCut(text[1..], max - |EncodeOne(text[0])|);
      CutsRightNext(text, max);
    }
  }

  // Fit is the longest prefix that fits, and leaves less than one code point's bytes unused.
  lemma {:induction false} FitIsLongest(text: Text, max: nat)
    ensures |Encode(text[..Fit(text, max)])| <= max
    ensures Fit(text, max) < |text| ==>
              |Encode(text[..Fit(text, max) + 1])| > max && max - |Encode(text[..Fit(text, max)])| <= 3
  {
    if text == [] {
    } else {
      var one := EncodeOne(text[0]);
      var k := Fit(text, max);
      if |one| > max {
        assert text[..1] == [text[0]] && text[..1][1..] == [];
      } else {
        FitIsLongest(text[1..], max - |one|);
        assert text[..k][1..] == text[1..][..k - 1];
        if k < |text| { assert text[..k + 1][1..] == text[1..][..k]; }
      }
    }
  }

  lemma {:induction false} FitAll(text: Text, max: nat)
    requires |Encode(text)| <= max
    ensures Fit(text, max) == |text|
  {
    if text == [] {
    } else {
      FitAll(text[1..], max - |EncodeOne(text[0])|);
    }
  }

  // The cap returns the longest code-point prefix whose encoding fits, and loses at most 3 bytes of the budget when
  // it truncates.
  lemma CapIsLongestPrefix(text: Text, max: nat)
    ensures Cap(text, max) == text[..Fit(text, max)] && |Encode(Cap(text, max))| <= max
    ensures forall k | Fit(text, max) < k <= |text| :: |Encode(text[..k])| > max
    ensures Cap(text, max) != text ==> max - 3 <= |Encode(Cap(text, max))| <= max
  {
    if |Encode(text)| <= max { FitAll(text, max); } else { DecodeCut(text, max); }
    FitIsLongest(text, max);
    var n := Fit(text, max);
    forall k | n < k <= |text| ensures |Encode(text[..k])| > max {
      assert text[..k] == text[..n + 1] + text[n + 1..k];
      EncodeConcat(text[..n + 1], text[n + 1..k]);
    }
  }

  lemma CapIsIdempotent(text: Text, max: nat)
    ensures Cap(Cap(text, max), max) == Cap(text, max)
  {
    CapIsLongestPrefix(text, max);
  }

  datatype Payload = Payload(sessionId: string, text: Text, bytes: nat)

  // What is pushed to the metrics service for a served text, which is capped once more
  function NotifyTokens(sessionId: string, text: Text, max: nat): Payload {
    var capped := Cap(text, max);
    Payload(sessionId, capped, |Encode(capped)|)
  }

  // The metrics count exactly the text and the bytes that were served.
  lemma MetricsSeeWhatIsServed(sessionId: string, content: Text, max: nat)
    ensures var served := Cap(content, max);
            NotifyTokens(sessionId, served, max) == Payload(sessionId, served, |Encode(served)|)
  {
    CapIsIdempotent(content, max);
  }
}
