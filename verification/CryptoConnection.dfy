/**
 The record of toxcore/net_crypto.h, updated in place: the two nonces are byte arrays that
 increment_nonce changes. Every method leaves the record at the value `CryptoSession` computes.
 */
module CryptoConnection {
  import opened Bytes
  import opened Wrappers
  import opened Nonce
  import S = CryptoSession

  class Connection {
    var status: nat
    var publicKey: S.Key
    const recvNonce: array<Byte>
    const sentNonce: array<Byte>
    var sessionSecret: S.Key
    var peerSession: S.Key
    var sharedKey: S.Key

    ghost predicate Valid() {
      recvNonce.Length == 24 && sentNonce.Length == 24 && recvNonce != sentNonce
    }

    ghost function View(): S.Session
      requires Valid()
      reads this, recvNonce, sentNonce
    {
      S.Session(status, publicKey, recvNonce[..], sentNonce[..], sessionSecret, peerSession, sharedKey)
    }

    constructor ()
      ensures Valid() && View() == S.NO_SESSION
      ensures fresh(recvNonce) && fresh(sentNonce)
    {
      status, publicKey, sessionSecret, peerSession, sharedKey := 0, [], [], [], [];
      recvNonce := new Byte[24](_ => 0);
      sentNonce := new Byte[24](_ => 0);
      new;
      assert recvNonce[..] == ZERO_NONCE;
      assert sentNonce[..] == ZERO_NONCE;
    }

    method SetNonce(target: array<Byte>, value: Nonce24)
      requires target.Length == 24
      modifies target
      ensures target[..] == value
    {
      forall i | 0 <= i < 24 {
        target[i] := value[i];
      }
    }

    method CryptoConnect(box: S.Box, secret: S.Key, peer: S.Key, base: Nonce24, session: S.Key, nonce: Nonce24)
      returns (packet: S.Text)
      requires Valid()
      modifies this, recvNonce, sentNonce
      ensures (View(), packet) == S.CryptoConnect(box, secret, peer, base, session, nonce)
    {
      status := S.HANDSHAKE_SENT;
      SetNonce(recvNonce, base);
      SetNonce(sentNonce, ZERO_NONCE);
      publicKey, sessionSecret, peerSession, sharedKey := peer, session, [], [];
      packet := S.HandshakePacket(box, secret, peer, nonce, recvNonce[..], box.publicOf(session));
      IncrementNonce(recvNonce);
    }

    method Meet(box: S.Box, hello: S.Hello) returns (packet: S.Text)
      requires Valid() && |hello.secretNonce| == 24
      modifies this, sentNonce
      ensures (View(), packet) == S.Meet(box, old(View()), hello)
    {
      SetNonce(sentNonce, hello.secretNonce);
      peerSession := hello.sessionKey;
      IncrementNonce(sentNonce);
      sharedKey := box.beforenm(peerSession, sessionSecret);
      packet := S.DataPacket(box, sharedKey, sentNonce[..], S.ZERO);
      IncrementNonce(sentNonce);
      status := S.NOT_CONFIRMED;
    }

    method AcceptCryptoInbound(box: S.Box, secret: S.Key, hello: S.Hello, base: Nonce24, session: S.Key, nonce: Nonce24)
      returns (packets: seq<S.Text>)
      requires Valid() && |hello.secretNonce| == 24
      modifies this, recvNonce, sentNonce
      ensures (View(), packets) == S.AcceptCryptoInbound(box, secret, hello, base, session, nonce)
    {
      var handshake := CryptoConnect(box, secret, hello.publicKey, base, session, nonce);
      var zero := Meet(box, hello);
      packets := [handshake, zero];
    }

    /** crypto_kill */
    method Kill()
      requires Valid()
      modifies this, recvNonce, sentNonce
      ensures View() == S.NO_SESSION
    {
      status, publicKey, sessionSecret, peerSession, sharedKey := 0, [], [], [], [];
      SetNonce(recvNonce, ZERO_NONCE);
      SetNonce(sentNonce, ZERO_NONCE);
    }

    method ReceiveCrypto(box: S.Box, secret: S.Key, data: S.Text) returns (reply: seq<S.Text>, killed: bool)
      requires Valid() && data != []
      modifies this, recvNonce, sentNonce
      ensures S.Received(View(), reply, killed) == S.ReceiveCrypto(box, secret, old(View()), data)
    {
      reply, killed := [], false;
      if status == S.HANDSHAKE_SENT {
        if data[0] == 2 {
          var hello := S.HandleCryptoHandshake(box, secret, data);
          if hello.Some? && hello.value.publicKey == publicKey {
            var zero := Meet(box, hello.value);
            reply := [zero];
          }
        } else {
          Kill();
          killed := true;
        }
      } else if status == S.NOT_CONFIRMED {
        var k := box.beforenm(peerSession, sessionSecret);
        if data[0] == 3 && S.DecryptDataFast(box, k, recvNonce[..], data[1..]) == Some(S.ZERO) {
          IncrementNonce(recvNonce);
          sharedKey := k;
          status := S.ESTABLISHED;
        } else {
          Kill();
          killed := true;
        }
      }
    }

    /** `room` is what write_packet answers. */
    method WriteCryptPacket(box: S.Box, msg: S.Text, room: bool) returns (packet: Option<S.Text>)
      requires Valid()
      modifies sentNonce
      ensures packet.Some? <==> S.CanWrite(old(View()), msg) && room
      ensures packet.Some? ==> (View(), packet.value) == S.WriteCryptPacket(box, old(View()), msg)
      ensures packet.None? ==> View() == old(View())
    {
      packet := None;
      if |msg| + S.MACBYTES > S.MAX_DATA_SIZE - 1 || status != S.ESTABLISHED {
        return;
      }
      var encrypted := S.EncryptDataFast(box, sharedKey, sentNonce[..], msg);
      if encrypted.Some? && room {
        packet := Some([3] + encrypted.value);
        IncrementNonce(sentNonce);
      }
    }

    /** `data` is what read_packet returns, empty if there is nothing to read. */
    method ReadCryptPacket(box: S.Box, data: S.Text) returns (msg: Option<S.Text>)
      requires Valid()
      modifies recvNonce
      ensures (View(), msg) == S.ReadCryptPacket(box, old(View()), data)
    {
      if status != S.ESTABLISHED || |data| == 0 || data[0] != 3 {
        return None;
      }
      msg := S.DecryptDataFast(box, sharedKey, recvNonce[..], data[1..]);
      if msg.Some? {
        IncrementNonce(recvNonce);
      }
    }
  }
}
