/**
 Batches: several messages packed in one compressed blob behind a marker.
 */
module Batch {
  import opened Bytes
  import opened Options
  import opened Segments

  const MAGIC: bytes := [76, 68, 66, 66]

  // ----- the codec -----

  /** gzip, as a pair of functions; `Lossless` is all that is used of it. */
  ghost predicate Lossless(zip: bytes -> bytes, unzip: bytes -> Option<bytes>) {
    forall b :: unzip(zip(b)) == Some(b)
  }

  /** The count, then each message as a length and its bytes: the same framing as a segment's records. */
  function Body(msgs: seq<bytes>): bytes {
    PutUint32(|msgs|) + Records(msgs)
  }

  function Encoded(msgs: seq<bytes>, zip: bytes -> bytes): bytes {
    MAGIC + zip(Body(msgs))
  }

  /** Not marked as a batch, marked but damaged, or a batch. */
  datatype Decoded = Plain | Damaged | Messages(msgs: seq<bytes>)

  /** `front` followed by what is still to be parsed. */
  function After(front: seq<bytes>, rest: Option<seq<bytes>>): Option<seq<bytes>> {
    match rest
    case None => None
    case Some(r) => Some(front + r)
  }

  function ParseFrom(body: bytes, pos: nat, left: nat): Option<seq<bytes>>
    decreases left
  {
    if left == 0 then Some([])
    else if pos + 4 > |body| then None
    else
      var end := pos + 4 + Uint32(body[pos..pos + 4]);
      if end > |body| then None
      else After([body[pos + 4..end]], ParseFrom(body, end, left - 1))
  }

  function Parse(body: bytes): Option<seq<bytes>> {
    if |body| < 4 then None else ParseFrom(body, 4, Uint32(body[..4]))
  }

  function Decode(blob: bytes, unzip: bytes -> Option<bytes>): Decoded {
    if |blob| < 4 || blob[..4] != MAGIC then Plain
    else match unzip(blob[4..])
      case None => Damaged
      case Some(body) =>
        match Parse(body)
        case None => Damaged
        case Some(msgs) => Messages(msgs)
  }

  method Encode(msgs: seq<bytes>, zip: bytes -> bytes) returns (blob: bytes)
    ensures blob == Encoded(msgs, zip)
  {
    var body := PutUint32(|msgs|);
    for i := 0 to |msgs|
      invariant body == PutUint32(|msgs|) + Records(msgs[..i])
    {
      RecordsSnoc(msgs[..i], msgs[i]);
      assert msgs[..i + 1] == msgs[..i] + [msgs[i]];
      body := body + PutUint32(|msgs[i]|);
      body := body + msgs[i];
    }
    assert msgs[..|msgs|] == msgs;
    blob := MAGIC + zip(body);
  }

  method TryDecode(blob: bytes, unzip: bytes -> Option<bytes>) returns (d: Decoded)
    ensures d == Decode(blob, unzip)
  {
    if |blob| < 4 || blob[..4] != MAGIC { return Plain; }
    var unzipped := unzip(blob[4..]);
    if unzipped == None { return Damaged; }
    var parsed := ParseBody(unzipped.value);
    d := if parsed.Some? then Messages(parsed.value) else Damaged;
  }

  method ParseBody(body: bytes) returns (r: Option<seq<bytes>>)
    ensures r == Parse(body)
  {
    if |body| < 4 { return None; }
    var count := Uint32(body[..4]);
    var pos: nat, result: seq<bytes> := 4, [];
    AfterNothing(ParseFrom(body, pos, count));
    for i := 0 to count
      invariant After(result, ParseFrom(body, pos, count - i)) == Parse(body)
    {
      if pos + 4 > |body| { return None; }
      var msgLen := Uint32(body[pos..pos + 4]);
      if pos + 4 + msgLen > |body| { return None; }
      var msg := body[pos + 4..pos + 4 + msgLen];
      AfterOne(result, msg, ParseFrom(body, pos + 4 + msgLen, count - i - 1));
      result := result + [msg];
      pos := pos + 4 + msgLen;
    }
    assert result + [] == result;
    r := Some(result);
  }

  lemma AfterNothing(rest: Option<seq<bytes>>)
    ensures After([], rest) == rest
  {
    if rest.Some? { assert [] + rest.value == rest.value; }
  }

  lemma AfterOne(front: seq<bytes>, m: bytes, rest: Option<seq<bytes>>)
    ensures After(front, After([m], rest)) == After(front + [m], rest)
  {
    if rest.Some? { assert front + ([m] + rest.value) == front + [m] + rest.value; }
  }

  // ----- what is accepted -----

  /** What the format can carry: fewer than 2^32 messages, each shorter than 2^32 bytes. */
  ghost predicate Carried(msgs: seq<bytes>) {
    |msgs| < UINT32_LIMIT && Short(msgs)
  }

  lemma {:induction false} ParseComplete(body: bytes, pos: nat, msgs: seq<bytes>)
    requires Short(msgs) && pos <= |body| && Records(msgs) <= body[pos..]
    ensures ParseFrom(body, pos, |msgs|) == Some(msgs)
    decreases |msgs|
  {
    if msgs == [] {
    } else {
      var m, rest := msgs[0], msgs[1..];
      assert msgs == [m] + rest;
      RecordsCons(m, rest);
      RecordAhead(body, pos, m, Records(rest));
      ParseComplete(body, pos + |Record(m)|, rest);
    }
  }

  lemma RecordAhead(body: bytes, pos: nat, m: bytes, rest: bytes)
    requires pos <= |body| && Record(m) + rest <= body[pos..] && |m| < UINT32_LIMIT
    ensures pos + |Record(m)| <= |body| && rest <= body[pos + |Record(m)|..]
    ensures Uint32(body[pos..pos + 4]) == |m| && body[pos + 4..pos + |Record(m)|] == m
  {
    var ahead := body[pos..];
    var n := |Record(m)|;
    assert ahead[..n] == Record(m) && body[pos..pos + 4] == ahead[..n][..4] == PutUint32(|m|);
    Uint32RoundTrip(|m|);
    assert body[pos + 4..pos + n] == ahead[..n][4..] == m;
    assert body[pos + n..] == ahead[n..];
  }

  lemma {:induction false} ParseSound(body: bytes, pos: nat, left: nat)
    requires pos <= |body| && ParseFrom(body, pos, left).Some?
    ensures var msgs := ParseFrom(body, pos, left).value; |msgs| == left && Short(msgs) && Records(msgs) <= body[pos..]
    decreases left
  {
    if left == 0 {
    } else {
      var end := pos + 4 + Uint32(body[pos..pos + 4]);
      var m := body[pos + 4..end];
      ParseSound(body, end, left - 1);
      var rest := ParseFrom(body, end, left - 1).value;
      RecordFound(body, pos, m);
      RecordsCons(m, rest);
      RecordBehind(body, pos, m, Records(rest));
    }
  }

  lemma RecordBehind(body: bytes, pos: nat, m: bytes, rest: bytes)
    requires RecordIn(body, pos, m) && rest <= body[pos + |Record(m)|..]
    ensures Record(m) + rest <= body[pos..]
  {
    var n := |Record(m)|;
    assert body[pos..] == body[pos..pos + n] + body[pos + n..];
  }

  /** The parser accepts exactly the encoded bodies, with anything after them, and gives back what was encoded. */
  lemma ParseExactly(body: bytes, msgs: seq<bytes>)
    ensures Parse(body) == Some(msgs) <==> Carried(msgs) && Body(msgs) <= body
  {
    if Parse(body) == Some(msgs) {
      ParseSound(body, 4, Uint32(body[..4]));
      Uint32Written(body[..4]);
      assert body == body[..4] + body[4..];
    }
    if Carried(msgs) && Body(msgs) <= body {
      assert body[..4] == Body(msgs)[..4] == PutUint32(|msgs|);
      Uint32RoundTrip(|msgs|);
      assert body[4..][..|Records(msgs)|] == Body(msgs)[4..] == Records(msgs);
      ParseComplete(body, 4, msgs);
    }
  }

  /** A blob is plain exactly when it does not start with the marker, and decodes to `msgs` exactly when it does and
      what follows unzips to their encoded body, with anything after it. Every other blob is damaged. */
  lemma DecodeExactly(blob: bytes, msgs: seq<bytes>, unzip: bytes -> Option<bytes>)
    ensures Decode(blob, unzip) == Plain <==> !(MAGIC <= blob)
    ensures Decode(blob, unzip) == Messages(msgs) <==>
              && MAGIC <= blob && unzip(blob[4..]).Some?
              && Carried(msgs) && Body(msgs) <= unzip(blob[4..]).value
  {
    assert MAGIC <= blob <==> |blob| >= 4 && blob[..4] == MAGIC;
    if |blob| >= 4 && unzip(blob[4..]).Some? { ParseExactly(unzip(blob[4..]).value, msgs); }
  }

  /** Decoding undoes encoding exactly for the messages the format can carry. */
  lemma RoundTrip(msgs: seq<bytes>, zip: bytes -> bytes, unzip: bytes -> Option<bytes>)
    requires Lossless(zip, unzip)
    ensures Decode(Encoded(msgs, zip), unzip) == Messages(msgs) <==> Carried(msgs)
  {
    var blob := Encoded(msgs, zip);
    assert blob[..4] == MAGIC && blob[4..] == zip(Body(msgs));
    ParseExactly(Body(msgs), msgs);
  }

  /** A body cut short anywhere is rejected. */
  lemma TruncationRejected(msgs: seq<bytes>, cut: nat)
    requires Carried(msgs) && cut < |Body(msgs)|
    ensures Parse(Body(msgs)[..cut]) == None
  {
    var body := Body(msgs)[..cut];
    match Parse(body)
    case None =>
    case Some(other) =>
      ParseExactly(body, other);
      ParseExactly(Body(msgs), other);
      ParseExactly(Body(msgs), msgs);
      assert false;
  }
}
