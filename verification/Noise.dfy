/** The transport phase of crypto/noise.go: implicit-nonce AEAD ciphers and the session that holds two of them. */
module Noise {
  import opened Base

  /** A key, named by what it was derived from. */
  datatype Key = Key(first: bool, transcript: seq<nat>)

  /**
    An authenticated cipher with ciphertexts of type C. `seal` and `open` take the key and the nonce
    the Noise library keeps implicitly.
  */
  datatype Aead<!C> = Aead(seal: (Key, nat, Bytes) -> C, open: (Key, nat, C) -> Option<Bytes>)

  /** What a ciphertext was sealed from can be opened with the same key and nonce. */
  ghost predicate Correct<C>(a: Aead<C>) {
    forall k: Key, n: nat, p: Bytes :: a.open(k, n, a.seal(k, n, p)) == Some(p)
  }

  /** Idealised security: a sealed ciphertext opens under its own key and nonce and under no others. */
  ghost predicate Ideal<C>(a: Aead<C>) {
    forall k: Key, n: nat, k': Key, n': nat, p: Bytes ::
      a.open(k, n, a.seal(k', n', p)) == if k == k' && n == n' then Some(p) else None
  }

  datatype Sealed = Sealed(key: Key, nonce: nat, plain: Bytes)

  /** The symbolic cipher: a ciphertext is the triple it was made from. */
  function Symbolic(): Aead<Sealed> {
    Aead((k, n, p) => Sealed(k, n, p),
         (k, n, c: Sealed) => if c.key == k && c.nonce == n then Some(c.plain) else None)
  }

  /** The ideal law is satisfiable, so results under it are not vacuous. */
  lemma {:induction false} SymbolicIsIdeal()
    ensures Ideal(Symbolic()) && Correct(Symbolic())
  {
  }

  /** A one-directional cipher state: its key and the next nonce. */
  datatype Cipher = Cipher(key: Key, nonce: nat)

  datatype SessionState = SessionState(send: Option<Cipher>, recv: Option<Cipher>)

  /** A session as a completed handshake hands it over. */
  function Fresh(sendKey: Key, recvKey: Key): SessionState {
    SessionState(Some(Cipher(sendKey, 0)), Some(Cipher(recvKey, 0)))
  }

  function Advance(c: Cipher): Cipher {
    Cipher(c.key, c.nonce + 1)
  }

  function EncryptStep<C>(a: Aead<C>, s: SessionState, plain: Bytes): (SessionState, Option<C>) {
    match s.send
    case None => (s, None)
    case Some(c) => (s.(send := Some(Advance(c))), Some(a.seal(c.key, c.nonce, plain)))
  }

  /** A failed decrypt leaves the receive nonce where it was. */
  function DecryptStep<C>(a: Aead<C>, s: SessionState, ct: C): (SessionState, Option<Bytes>) {
    match s.recv
    case None => (s, None)
    case Some(c) =>
      match a.open(c.key, c.nonce, ct)
      case None => (s, None)
      case Some(plain) => (s.(recv := Some(Advance(c))), Some(plain))
  }

  const CLOSED_SESSION := SessionState(None, None)

  class Session {
    var sendCipher: Option<Cipher>
    var recvCipher: Option<Cipher>
    var remoteStaticKey: Bytes
    var handshakeHash: Bytes

    function State(): SessionState
      reads this`sendCipher, this`recvCipher
    {
      SessionState(sendCipher, recvCipher)
    }

    constructor (sendKey: Key, recvKey: Key, remoteStaticKey: Bytes, handshakeHash: Bytes)
      ensures State() == Fresh(sendKey, recvKey)
      ensures this.remoteStaticKey == remoteStaticKey && this.handshakeHash == handshakeHash
    {
      this.remoteStaticKey, this.handshakeHash := remoteStaticKey, handshakeHash;
      sendCipher := Some(Cipher(sendKey, 0));
      recvCipher := Some(Cipher(recvKey, 0));
    }

    method Encrypt<C>(a: Aead<C>, plain: Bytes) returns (ct: Option<C>)
      modifies this`sendCipher
      ensures (State(), ct) == EncryptStep(a, old(State()), plain)
    {
      if sendCipher.None? {
        return None;
      }
      var c := sendCipher.value;
      ct := Some(a.seal(c.key, c.nonce, plain));
      sendCipher := Some(Cipher(c.key, c.nonce + 1));
    }

    method Decrypt<C>(a: Aead<C>, ct: C) returns (plain: Option<Bytes>)
      modifies this`recvCipher
      ensures (State(), plain) == DecryptStep(a, old(State()), ct)
    {
      if recvCipher.None? {
        return None;
      }
      var c := recvCipher.value;
      plain := a.open(c.key, c.nonce, ct);
      if plain.Some? {
        recvCipher := Some(Cipher(c.key, c.nonce + 1));
      }
    }

    method Close()
      modifies this
      ensures State() == CLOSED_SESSION && remoteStaticKey == [] && handshakeHash == []
    {
      remoteStaticKey, handshakeHash := [], [];
      sendCipher := None;
      recvCipher := None;
    }
  }
}
