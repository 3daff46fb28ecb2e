/**
 The encrypted session of toxcore/net_crypto.c on top of a reliable packet stream.

 `crypto_box` is a parameter; what is assumed of it are the two laws of `BoxLaws`. Random nonces
 and key pairs are inputs of the operations that draw them.
 */
module CryptoSession {
  import opened Bytes
  import opened Wrappers
  import opened Nonce

  type Key = seq<Byte>
  type Text = seq<Byte>

  const MAX_DATA_SIZE: nat := 1024
  const KEYBYTES: nat := 32
  const MACBYTES: nat := 16

  /** publicOf: secret to public key; the others are crypto_box_beforenm, _afternm and _open_afternm. */
  datatype Box = Box(
    publicOf: Key -> Key,
    beforenm: (Key, Key) -> Key,
    afternm: (Key, seq<Byte>, Text) -> Text,
    openAfternm: (Key, seq<Byte>, Text) -> Option<Text>)

  /** Decryption inverts encryption, and both sides of two key pairs derive the same shared key. */
  ghost predicate BoxLaws(box: Box) {
    && (forall a :: |box.publicOf(a)| == KEYBYTES)
    && (forall k, n, m :: |box.afternm(k, n, m)| == |m| + MACBYTES)
    && (forall k, n, m :: box.openAfternm(k, n, box.afternm(k, n, m)) == Some(m))
    && (forall a, b :: box.beforenm(box.publicOf(a), b) == box.beforenm(box.publicOf(b), a))
  }

  /** A box without secrecy, to show that the laws can be met. */
  function PlainBox(): Box {
    Box(_ => seq(32, _ => 0),
        (_, _) => [],
        (_, _, m) => m + ZERO_NONCE[..16],
        (_, _, c) => if |c| >= 16 then Some(c[..|c| - 16]) else None)
  }

  lemma LawsCanBeMet()
    ensures BoxLaws(PlainBox())
  {
    var box := PlainBox();
    forall k, n, m
      ensures box.openAfternm(k, n, box.afternm(k, n, m)) == Some(m)
    {
      assert (m + ZERO_NONCE[..16])[..|m|] == m;
    }
  }

  function EncryptDataFast(box: Box, k: Key, nonce: seq<Byte>, plain: Text): Option<Text> {
    if |plain| + MACBYTES > MAX_DATA_SIZE || |plain| == 0 then None else Some(box.afternm(k, nonce, plain))
  }

  function DecryptDataFast(box: Box, k: Key, nonce: seq<Byte>, encrypted: Text): Option<Text> {
    if |encrypted| > MAX_DATA_SIZE || |encrypted| <= MACBYTES then None else box.openAfternm(k, nonce, encrypted)
  }

  // ---------- packets ----------

  const HANDSHAKE_LENGTH: nat := 1 + 32 + 24 + 24 + 32 + 16
  const ZERO: Text := [0, 0, 0, 0]

  function HandshakePacket(box: Box, secret: Key, peer: Key, nonce: Nonce24, secretNonce: Nonce24, session: Key): Text {
    [2] + box.publicOf(secret) + nonce + box.afternm(box.beforenm(peer, secret), nonce, secretNonce + session)
  }

  datatype Hello = Hello(publicKey: Key, secretNonce: seq<Byte>, sessionKey: Key)

  function HandleCryptoHandshake(box: Box, secret: Key, data: Text): (r: Option<Hello>)
    ensures r.Some? ==> |r.value.secretNonce| == 24
  {
    if |data| != HANDSHAKE_LENGTH || data[0] != 2 then None
    else
      var publicKey := data[1..33];
      var plain := DecryptDataFast(box, box.beforenm(publicKey, secret), data[33..57], data[57..]);
      if plain.None? || |plain.value| != 56 then None
      else Some(Hello(publicKey, plain.value[..24], plain.value[24..]))
  }

  lemma HandshakeRoundTrip(box: Box, a: Key, b: Key, nonce: Nonce24, secretNonce: Nonce24, session: Key)
    requires BoxLaws(box) && |session| == KEYBYTES
    ensures var data := HandshakePacket(box, a, box.publicOf(b), nonce, secretNonce, session);
      && |data| == 129 && data[0] == 2 && data[1..33] == box.publicOf(a) && data[33..57] == nonce
      && HandleCryptoHandshake(box, b, data) == Some(Hello(box.publicOf(a), secretNonce, session))
  {
    var data := HandshakePacket(box, a, box.publicOf(b), nonce, secretNonce, session);
    assert data[1..33] == box.publicOf(a);
    assert data[33..57] == nonce;
    var k := box.beforenm(box.publicOf(b), a);
    assert data[57..] == box.afternm(k, nonce, secretNonce + session);
    assert k == box.beforenm(box.publicOf(a), b);
    assert (secretNonce + session)[..24] == secretNonce;
    assert (secretNonce + session)[24..] == session;
  }

  function DataPacket(box: Box, k: Key, nonce: seq<Byte>, plain: Text): Text {
    [3] + box.afternm(k, nonce, plain)
  }

  // ---------- one end of a session ----------

  const NO_CONNECTION: nat := 0
  const HANDSHAKE_SENT: nat := 1
  const NOT_CONFIRMED: nat := 2
  const ESTABLISHED: nat := 3

  datatype Session = Session(
    status: nat,
    publicKey: Key,
    recvNonce: Nonce24,
    sentNonce: Nonce24,
    sessionSecret: Key,
    peerSession: Key,
    sharedKey: Key)

  const NO_SESSION: Session := Session(0, [], ZERO_NONCE, ZERO_NONCE, [], [], [])

  /** crypto_connect: the new record and the handshake it sends. */
  function CryptoConnect(box: Box, secret: Key, peer: Key, base: Nonce24, session: Key, nonce: Nonce24): (Session, Text) {
    (Session(HANDSHAKE_SENT, peer, Inc(base), ZERO_NONCE, session, [], []),
     HandshakePacket(box, secret, peer, nonce, base, box.publicOf(session)))
  }

  /** The record after the peer's handshake, and the packet of four zero bytes that confirms it. */
  function Meet(box: Box, s: Session, hello: Hello): (Session, Text)
    requires |hello.secretNonce| == 24
  {
    var k := box.beforenm(hello.sessionKey, s.sessionSecret);
    (s.(status := NOT_CONFIRMED, sentNonce := Inc(Inc(hello.secretNonce)), peerSession := hello.sessionKey, sharedKey := k),
     DataPacket(box, k, Inc(hello.secretNonce), ZERO))
  }

  /** accept_crypto_inbound: answer with our own handshake, then confirm. */
  function AcceptCryptoInbound(box: Box, secret: Key, hello: Hello, base: Nonce24, session: Key, nonce: Nonce24)
    : (Session, seq<Text>)
    requires |hello.secretNonce| == 24
  {
    var (s, handshake) := CryptoConnect(box, secret, hello.publicKey, base, session, nonce);
    var (s', zero) := Meet(box, s, hello);
    (s', [handshake, zero])
  }

  datatype Received = Received(session: Session, reply: seq<Text>, killed: bool)

  /** receive_crypto for one record and the next packet of its stream. */
  function ReceiveCrypto(box: Box, secret: Key, s: Session, data: Text): Received
    requires data != []
  {
    if s.status == HANDSHAKE_SENT then
      if data[0] != 2 then Received(NO_SESSION, [], true)
      else
        var hello := HandleCryptoHandshake(box, secret, data);
        if hello.Some? && hello.value.publicKey == s.publicKey then
          var (s', zero) := Meet(box, s, hello.value);
          Received(s', [zero], false)
        else Received(s, [], false)
    else if s.status == NOT_CONFIRMED then
      var k := box.beforenm(s.peerSession, s.sessionSecret);
      if data[0] == 3 && DecryptDataFast(box, k, s.recvNonce, data[1..]) == Some(ZERO) then
        Received(s.(status := ESTABLISHED, recvNonce := Inc(s.recvNonce), sharedKey := k), [], false)
      else Received(NO_SESSION, [], true)
    else Received(s, [], false)
  }

  predicate CanWrite(s: Session, msg: Text) {
    s.status == ESTABLISHED && |msg| + MACBYTES <= MAX_DATA_SIZE - 1 && |msg| != 0
  }

  /** write_cryptpacket, when the stream has room. */
  function WriteCryptPacket(box: Box, s: Session, msg: Text): (Session, Text)
    requires CanWrite(s, msg)
  {
    (s.(sentNonce := Inc(s.sentNonce)), DataPacket(box, s.sharedKey, s.sentNonce, msg))
  }

  /** read_cryptpacket; None stands for no session, nothing to read or a discarded packet. */
  function ReadCryptPacket(box: Box, s: Session, data: Text): (Session, Option<Text>) {
    if s.status != ESTABLISHED || data == [] || data[0] != 3 then (s, None)
    else
      var plain := DecryptDataFast(box, s.sharedKey, s.recvNonce, data[1..]);
      (if plain.Some? then s.(recvNonce := Inc(s.recvNonce)) else s, plain)
  }

  // ---------- what is refused ----------

  /** The plain text under a data packet, if it is one: 1 to 1007 bytes, sealed with this key and nonce. */
  function Opened(box: Box, k: Key, nonce: seq<Byte>, data: Text): Option<Text> {
    if 18 <= |data| <= 1025 && data[0] == 3 then box.openAfternm(k, nonce, data[1..]) else None
  }

  /** A handshake is accepted exactly if it has 129 bytes, starts with 2 and opens to 56 bytes under the sender's key. */
  lemma HandshakeAcceptedIff(box: Box, secret: Key, data: Text, h: Hello)
    ensures HandleCryptoHandshake(box, secret, data) == Some(h) <==>
            && |data| == 129 && data[0] == 2 && h.publicKey == data[1..33] && |h.secretNonce| == 24 && |h.sessionKey| == 32
            && box.openAfternm(box.beforenm(data[1..33], secret), data[33..57], data[57..]) == Some(h.secretNonce + h.sessionKey)
  {
    if |h.secretNonce| == 24 {
      assert (h.secretNonce + h.sessionKey)[..24] == h.secretNonce;
      assert (h.secretNonce + h.sessionKey)[24..] == h.sessionKey;
    }
    if |data| == 129 && data[0] == 2 {
      var plain := DecryptDataFast(box, box.beforenm(data[1..33], secret), data[33..57], data[57..]);
      if plain.Some? && |plain.value| == 56 {
        assert plain.value == plain.value[..24] + plain.value[24..];
      }
    }
  }

  /** Waiting for the handshake: one from the right peer is met, any other is ignored, anything else ends the session. */
  lemma WaitsForHandshake(box: Box, secret: Key, s: Session, data: Text)
    requires s.status == 1 && data != []
    ensures var r, hello := ReceiveCrypto(box, secret, s, data), HandleCryptoHandshake(box, secret, data);
      && (r.killed <==> data[0] != 2)
      && (r.session.status == 2 <==> hello.Some? && hello.value.publicKey == s.publicKey)
      && (!r.killed && r.session.status != 2 ==> r.session == s && r.reply == [])
      && (r.session.status == 2 ==>
            && r.session.sentNonce == Inc(Inc(hello.value.secretNonce))
            && r.session.recvNonce == s.recvNonce
            && r.reply == [DataPacket(box, box.beforenm(hello.value.sessionKey, s.sessionSecret), Inc(hello.value.secretNonce), [0, 0, 0, 0])])
  {
  }

  /** Waiting for the confirmation: four zero bytes under the right key and nonce establish, anything else ends the session. */
  lemma WaitsForConfirmation(box: Box, secret: Key, s: Session, data: Text)
    requires s.status == 2 && data != []
    ensures var r, k := ReceiveCrypto(box, secret, s, data), box.beforenm(s.peerSession, s.sessionSecret);
      && r.reply == []
      && (r.session.status == 3 <==> Opened(box, k, s.recvNonce, data) == Some([0, 0, 0, 0]))
      && (r.session.status == 3 ==> r.session == s.(status := 3, recvNonce := Inc(s.recvNonce), sharedKey := k))
      && (r.killed <==> r.session.status != 3)
  {
  }

  /** Encryption takes 1 to 1008 bytes, decryption 17 to 1024. */
  lemma CryptLengths(box: Box, k: Key, nonce: seq<Byte>, text: Text)
    ensures EncryptDataFast(box, k, nonce, text) == if 1 <= |text| <= 1008 then Some(box.afternm(k, nonce, text)) else None
    ensures DecryptDataFast(box, k, nonce, text) == if 17 <= |text| <= 1024 then box.openAfternm(k, nonce, text) else None
  {
  }

  /** An established session writes exactly messages of 1 to 1007 bytes. */
  lemma WritesIff(s: Session, msg: Text)
    ensures CanWrite(s, msg) <==> s.status == 3 && 1 <= |msg| <= 1007
  {
  }

  /** It reads exactly what opens under its key and nonce; everything else is discarded and leaves it as it was. */
  lemma ReadsIff(box: Box, s: Session, data: Text)
    ensures var (s', msg) := ReadCryptPacket(box, s, data);
      && msg == (if s.status == 3 then Opened(box, s.sharedKey, s.recvNonce, data) else None)
      && s' == (if msg.Some? then s.(recvNonce := Inc(s.recvNonce)) else s)
  {
  }
}
