/** BGP messages as frames: the header of section 4.1 of RFC 4271, errors and session parameters. */
module Protocol {
  import opened Base

  const MAX_MESSAGE: nat := 4096
  const MAX_UPDATE_PREFIXES: nat := 200

  const UPDATE: octet := 2
  const NOTIFICATION: octet := 3
  const KEEPALIVE: octet := 4

  datatype ProtocolError = ProtocolError(code: octet, subcode: octet, data: Bytes)

  datatype Negotiated = Negotiated(
    routerId: nat, hold: nat, asn4: bool, internal: bool, ipv4: bool, ipv6: bool)

  /** Whether a family was negotiated. */
  predicate Enabled(n: Negotiated, v6: bool) {
    if v6 then n.ipv6 else n.ipv4
  }

  function Marker(): (m: Bytes)
    ensures |m| == 16
  {
    seq(16, _ => 255)
  }

  /** The program asserts the size; so does the caller here. */
  function Frame(kind: octet, body: Bytes): (f: Bytes)
    requires |body| + 19 <= MAX_MESSAGE
    ensures |f| == |body| + 19
  {
    Marker() + Be16(|body| + 19) + [kind] + body
  }

  /** Error data is cut so that the message always fits. */
  function Notify(code: octet, subcode: octet, data: Bytes): Bytes {
    var kept := if |data| <= MAX_MESSAGE - 21 then data else data[..MAX_MESSAGE - 21];
    Frame(NOTIFICATION, [code, subcode] + kept)
  }

  predicate LengthFitsKind(kind: octet, len: nat) {
    match kind
    case 1 => len >= 29
    case 2 => len >= 23
    case 3 => len >= 21
    case 4 => len == 19
    case 5 => len == 23
    case _ => false
  }

  /** One read of a byte stream: a frame and what follows it, an early end, or a protocol error. */
  datatype Read =
    | Got(kind: octet, body: Bytes, rest: Bytes)
    | EndOfStream
    | Bad(error: ProtocolError)

  function ReadFrame(s: Bytes): (r: Read)
    ensures r.Got? ==> |r.body| + 19 <= MAX_MESSAGE && LengthFitsKind(r.kind, |r.body| + 19)
    ensures r.Got? ==> |r.rest| + |r.body| + 19 == |s| && s == Frame(r.kind, r.body) + r.rest
  {
    if |s| < 19 then EndOfStream
    else if s[..16] != Marker() then Bad(ProtocolError(1, 1, []))
    else
      var len := U16(s[16..18]);
      var kind := s[18];
      if !(19 <= len <= MAX_MESSAGE) then Bad(ProtocolError(1, 2, s[16..18]))
      else if !(1 <= kind <= 5) then Bad(ProtocolError(1, 3, [kind]))
      else if !LengthFitsKind(kind, len) then Bad(ProtocolError(1, 2, s[16..18]))
      else if |s| < len then EndOfStream
      else
        var body := s[19..len];
        assert s == Frame(kind, body) + s[len..] by {
          assert s == s[..16] + s[16..18] + [s[18]] + s[19..len] + s[len..];
          assert s[16..18] == Be16(len);
        }
        Got(kind, body, s[len..])
  }

  /** Reading undoes framing, whatever follows on the stream. */
  lemma ReadFrameOfFrame(kind: octet, body: Bytes, rest: Bytes)
    requires |body| + 19 <= MAX_MESSAGE
    requires LengthFitsKind(kind, |body| + 19)
    ensures ReadFrame(Frame(kind, body) + rest) == Got(kind, body, rest)
  {
    var s := Frame(kind, body) + rest;
    var len := |body| + 19;
    assert s[..16] == Marker();
    assert s[16..18] == Be16(len);
    assert s[18] == kind;
    assert s[19..len] == body;
    assert s[len..] == rest;
  }

  /** Which bodies a type may have: OPEN 10 octets or more, UPDATE 4, NOTIFICATION 2, KEEPALIVE none,
      ROUTE-REFRESH exactly 4. */
  lemma SizesExactly(kind: octet, body: Bytes, rest: Bytes)
    requires |body| + 19 <= MAX_MESSAGE
    ensures ReadFrame(Frame(kind, body) + rest) == Got(kind, body, rest)
            <==> || (kind == 1 && |body| >= 10) || (kind == 2 && |body| >= 4) || (kind == 3 && |body| >= 2)
                 || (kind == 4 && body == []) || (kind == 5 && |body| == 4)
    ensures !(1 <= kind <= 5) ==> ReadFrame(Frame(kind, body) + rest) == Bad(ProtocolError(1, 3, [kind]))
    ensures 1 <= kind <= 5 && !ReadFrame(Frame(kind, body) + rest).Got? ==>
              ReadFrame(Frame(kind, body) + rest) == Bad(ProtocolError(1, 2, Be16(|body| + 19)))
  {
    var s := Frame(kind, body) + rest;
    assert s[..16] == Marker() && s[16..18] == Be16(|body| + 19) && s[18] == kind;
    if LengthFitsKind(kind, |body| + 19) {
      ReadFrameOfFrame(kind, body, rest);
    }
  }

  /** Sixteen octets of ones, the whole length, the type, the body (section 4.1 of RFC 4271); anything else in
      the marker or the length is an error. */
  lemma HeaderExactly(kind: octet, body: Bytes)
    requires |body| + 19 <= MAX_MESSAGE
    ensures var f := Frame(kind, body);
            && (forall i :: 0 <= i < 16 ==> f[i] == 255)
            && 256 * f[16] as int + f[17] as int == |f| && f[18] == kind && f[19..] == body
  {
  }

  lemma BadHeaders(s: Bytes)
    requires |s| >= 19
    ensures ReadFrame(s) == Bad(ProtocolError(1, 1, [])) <==> exists i :: 0 <= i < 16 && s[i] != 255
    ensures (forall i :: 0 <= i < 16 ==> s[i] == 255) && !(19 <= 256 * s[16] as int + s[17] as int <= 4096) ==>
              ReadFrame(s) == Bad(ProtocolError(1, 2, [s[16], s[17]]))
  {
    assert s[..16] == Marker() <==> forall i :: 0 <= i < 16 ==> s[i] == 255;
    assert s[16..18] == [s[16], s[17]];
  }

  /** Every NOTIFICATION is a readable frame that begins with the error it reports. */
  lemma NotificationReadable(code: octet, subcode: octet, data: Bytes, rest: Bytes)
    ensures |Notify(code, subcode, data)| <= MAX_MESSAGE
    ensures var r := ReadFrame(Notify(code, subcode, data) + rest);
            r.Got? && r.kind == NOTIFICATION && r.rest == rest
            && r.body[..2] == [code, subcode] && r.body[2..] <= data
            && (|data| <= MAX_MESSAGE - 21 ==> r.body[2..] == data)
  {
    var kept := if |data| <= MAX_MESSAGE - 21 then data else data[..MAX_MESSAGE - 21];
    ReadFrameOfFrame(NOTIFICATION, [code, subcode] + kept, rest);
    assert ([code, subcode] + kept)[2..] == kept;
  }

  /** Bytes that arrive later never change a frame that could already be read. */
  lemma ReadFrameStable(s: Bytes, more: Bytes)
    requires ReadFrame(s).Got?
    ensures ReadFrame(s + more) == ReadFrame(s).(rest := ReadFrame(s).rest + more)
  {
    var g := ReadFrame(s);
    assert s + more == Frame(g.kind, g.body) + (g.rest + more);
    ReadFrameOfFrame(g.kind, g.body, g.rest + more);
  }
}
