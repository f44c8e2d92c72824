/** internal/securechan/securechan.go: the numbered, sealed envelope and its replay window. */
module SecureChannel {
  import opened Words

  const ENVELOPE_VERSION: Byte := 1
  const ENVELOPE_HEADER: nat := 9
  const GCM_TAG_SIZE: nat := 16
  const WINDOW_SIZE: nat := 64

  datatype Error = TooShort | UnknownVersion | ReplayOrOutOfWindow | OpenFailed
  datatype Result = Plain(plaintext: Bytes) | Rejected(error: Error)

  /** What `Open` returns. */
  datatype Opened = Opened(plaintext: Bytes) | NotAuthentic

  /** One keyed AES-GCM instance, known only through what it does to a nonce and a text. */
  datatype Aead = Aead(seal: (Bytes, Bytes) -> Bytes, open: (Bytes, Bytes) -> Opened)

  /** The two laws of an AEAD the channel relies on: a sealed text opens to itself under
      the same nonce, and it is longer than the text by the tag. */
  ghost predicate Lawful(c: Aead) {
    forall n: Bytes, p: Bytes {:trigger c.seal(n, p)} ::
      c.open(n, c.seal(n, p)) == Opened(p) && |c.seal(n, p)| == |p| + GCM_TAG_SIZE
  }

  // ----- the replay window -----

  /** The set-based meaning of the window: number is accepted when it is non-zero, was never
      accepted before, and is less than 64 behind everything accepted so far. */
  ghost predicate Acceptable(accepted: set<nat>, number: nat) {
    number != 0 && number !in accepted && forall a | a in accepted :: a < number + WINDOW_SIZE
  }

  ghost function Accept(accepted: set<nat>, number: nat): set<nat> {
    if Acceptable(accepted, number) then accepted + {number} else accepted
  }

  /** The highest number and a bitmap stand for a set of accepted numbers: bit k of the
      bitmap says whether the number k below the highest was accepted. */
  ghost predicate Represents(maxSeq: nat, bitmap: nat, accepted: set<nat>) {
    && (forall a | a in accepted :: 0 < a <= maxSeq)
    && (maxSeq > 0 ==> maxSeq in accepted)
    && (forall k: nat | k < WINDOW_SIZE :: Bit(bitmap, k) <==> maxSeq - k in accepted)
  }

  lemma JumpRepresents(maxSeq: Uint64, bitmap: Uint64, accepted: set<nat>, number: Uint64)
    requires Represents(maxSeq, bitmap, accepted) && number > maxSeq
    ensures var shifted := if number - maxSeq >= WINDOW_SIZE then 0 else ShiftLeft(bitmap, number - maxSeq);
            Represents(number, Or64(shifted, 1), accepted + {number})
  {
    var shift := number - maxSeq;
    var shifted := if shift >= WINDOW_SIZE then 0 else ShiftLeft(bitmap, shift);
    forall k: nat | k < WINDOW_SIZE
      ensures Bit(Or64(shifted, 1), k) <==> number - k in accepted + {number}
    {
      OrBit(shifted, 1, k);
      Pow2Bit(0, k);
      if shift >= WINDOW_SIZE {
        ZeroBits(k);
      } else {
        ShiftBit(bitmap, shift, k);
        if k >= shift {
          assert number - k == maxSeq - (k - shift);
        }
      }
    }
  }

  lemma MarkRepresents(maxSeq: Uint64, bitmap: Uint64, accepted: set<nat>, number: Uint64)
    requires Represents(maxSeq, bitmap, accepted) && 0 < number <= maxSeq < number + WINDOW_SIZE
    ensures Represents(maxSeq, Or64(bitmap, ShiftLeft(1, maxSeq - number)), accepted + {number})
  {
    var diff := maxSeq - number;
    OneShifted(diff);
    forall k: nat | k < WINDOW_SIZE
      ensures Bit(Or64(bitmap, ShiftLeft(1, diff)), k) <==> maxSeq - k in accepted + {number}
    {
      OrBit(bitmap, Pow2(diff), k);
      Pow2Bit(diff, k);
    }
  }

  class ReplayWindow {
    var maxSeq: Uint64
    var bitmap: Uint64
    ghost var accepted: set<nat>  // every number Check has ever accepted

    ghost predicate Valid()
      reads this
    {
      Represents(maxSeq, bitmap, accepted)
    }

    constructor ()
      ensures Valid() && accepted == {}
    {
      maxSeq, bitmap, accepted := 0, 0, {};
      new;
      forall k: nat | k < WINDOW_SIZE ensures !Bit(0, k) {
        ZeroBits(k);
      }
    }

    /** The bitmap decides exactly as the set of all accepted numbers does, whatever the
        size of the jump. */
    method Check(number: Uint64) returns (ok: bool)
      requires Valid()
      modifies this
      ensures Valid()
      ensures ok <==> Acceptable(old(accepted), number)
      ensures ok <==> number != 0 && number !in old(accepted) && forall a | a in old(accepted) :: a < number + 64
      ensures accepted == Accept(old(accepted), number)
    {
      if number == 0 {
        return false;
      }
      if number > maxSeq {
        JumpRepresents(maxSeq, bitmap, accepted, number);
        var shift := number - maxSeq;
        if shift >= WINDOW_SIZE {
          bitmap := 0;
        } else {
          bitmap := ShiftLeft(bitmap, shift);
        }
        maxSeq := number;
        bitmap := Or64(bitmap, 1);
        accepted := accepted + {number};
        return true;
      }
      var diff := maxSeq - number;
      if diff >= WINDOW_SIZE {
        return false;
      }
      var bit := ShiftLeft(1, diff);
      OneShifted(diff);
      MaskTest(bitmap, diff);
      assert Bit(bitmap, diff) <==> number in accepted;
      if And(bitmap, bit) != 0 {
        return false;
      }
      MarkRepresents(maxSeq, bitmap, accepted, number);
      bitmap := Or64(bitmap, bit);
      accepted := accepted + {number};
      return true;
    }
  }

  // ----- nonces -----

  type Nonce = b: Bytes | |b| == 12 witness seq(12, _ => 0)

  /** The per-record nonce: the sequence number, padded on the left to the nonce length,
      XORed into the direction's fixed nonce (section 5.3 of RFC 8446). */
  function NonceFor(base: Nonce, number: nat): (n: Nonce) {
    var padded := [0, 0, 0, 0] + PutBE(number, 8);
    seq(12, i requires 0 <= i < 12 => XorByte(base[i], padded[i]))
  }

  /** The same bit by bit: the first four bytes are the base's; bit k of byte i after them is
      the base's, turned over where the number has bit 8 * (11 - i) + k. */
  ghost predicate NonceBits(nonce: Nonce, base: Nonce, number: Uint64) {
    && (forall i | 0 <= i < 4 :: nonce[i] == base[i])
    && (forall i, k: nat | 4 <= i < 12 && k < 8 ::
          Bit(nonce[i], k) <==> (Bit(base[i], k) != Bit(number, 8 * (11 - i) + k)))
  }

  lemma NonceForBits(base: Nonce, number: Uint64)
    ensures NonceBits(NonceFor(base, number), base, number)
  {
    var padded := [0, 0, 0, 0] + PutBE(number, 8);
    forall i | 0 <= i < 4 ensures NonceFor(base, number)[i] == base[i] {
      assert padded[i] == 0 && Xor(base[i], 0) == base[i];
    }
    forall i, k: nat | 4 <= i < 12 && k < 8
      ensures Bit(NonceFor(base, number)[i], k) <==> (Bit(base[i], k) != Bit(number, 8 * (11 - i) + k))
    {
      XorBit(base[i], padded[i], k);
      assert padded[i] == PutBE(number, 8)[i - 4];
      BigEndianBits(number, 8, i - 4, k);
    }
  }

  /** The bits leave no choice: different numbers below 2^64 have different nonces. */
  lemma NoncesApart(base: Nonce, a: Nonce, m: Uint64, b: Nonce, n: Uint64)
    requires NonceBits(a, base, m) && NonceBits(b, base, n)
    ensures a == b <==> m == n
  {
    NonceBitsUnique(base, a, m);
    NonceBitsUnique(base, b, n);
    NonceInjective(base, m, n);
  }

  lemma NonceBitsUnique(base: Nonce, nonce: Nonce, number: Uint64)
    requires NonceBits(nonce, base, number)
    ensures nonce == NonceFor(base, number)
  {
    var n := NonceFor(base, number);
    NonceForBits(base, number);
    hide NonceFor;
    forall i | 0 <= i < 12 ensures nonce[i] == n[i] {
      if i >= 4 {
        forall k: nat | k < 8 ensures Bit(nonce[i], k) <==> Bit(n[i], k) {}
        ByteBits(nonce[i], n[i]);
      }
    }
    assert nonce == n;
  }

  method MakeNonce(base: Nonce, number: Uint64) returns (nonce: Nonce)
    ensures nonce == NonceFor(base, number)
    ensures NonceBits(nonce, base, number)
  {
    var buffer := new Byte[12](i requires 0 <= i < 12 => base[i]);
    var seqBytes := [0, 0, 0, 0] + PutBE(number, 8);
    for i := 0 to 12
      invariant forall j | 0 <= j < i :: buffer[j] == XorByte(base[j], seqBytes[j])
      invariant forall j | i <= j < 12 :: buffer[j] == base[j]
    {
      buffer[i] := XorByte(buffer[i], seqBytes[i]);
    }
    nonce := buffer[..];
    assert nonce == NonceFor(base, number);
    NonceForBits(base, number);
  }

  /** Two numbers below 2^64 share a nonce only if they are equal, for every base. */
  lemma NonceInjective(base: Nonce, m: Uint64, n: Uint64)
    ensures NonceFor(base, m) == NonceFor(base, n) <==> m == n
  {
    if NonceFor(base, m) == NonceFor(base, n) {
      var x, y := [0, 0, 0, 0] + PutBE(m, 8), [0, 0, 0, 0] + PutBE(n, 8);
      forall i | 0 <= i < 12 ensures x[i] == y[i] {
        assert NonceFor(base, m)[i] == XorByte(base[i], x[i]);
        assert NonceFor(base, n)[i] == XorByte(base[i], y[i]);
        XorCancels(base[i], x[i]);
        XorCancels(base[i], y[i]);
      }
      assert PutBE(m, 8) == x[4..] == y[4..] == PutBE(n, 8);
      Pow256Is64();
      BigEndianRoundTrip(m, 8);
      BigEndianRoundTrip(n, 8);
    }
  }

  // ----- envelopes -----

  function Header(number: Uint64): (h: Bytes)
    ensures |h| == ENVELOPE_HEADER
  {
    [ENVELOPE_VERSION] + PutBE(number, 8)
  }

  function Envelope(c: Aead, base: Nonce, number: Uint64, plaintext: Bytes): Bytes {
    Header(number) + c.seal(NonceFor(base, number), plaintext)
  }

  function NextSeq(s: Uint64): Uint64 {
    (s + 1) % TWO64
  }

  function SeqOf(envelope: Bytes): (n: Uint64)
    requires |envelope| >= ENVELOPE_HEADER
  {
    GetBound(envelope[1..9]);
    Pow256Is64();
    GetBE(envelope[1..9])
  }

  function OpenEnvelope(c: Aead, base: Nonce, envelope: Bytes): Result
    requires |envelope| >= ENVELOPE_HEADER
  {
    match c.open(NonceFor(base, SeqOf(envelope)), envelope[ENVELOPE_HEADER..])
    case Opened(p) => Plain(p)
    case NotAuthentic => Rejected(OpenFailed)
  }

  /** What Decrypt answers, in terms of the set of numbers accepted before. */
  ghost function Receive(c: Aead, base: Nonce, accepted: set<nat>, envelope: Bytes): (set<nat>, Result) {
    if |envelope| < ENVELOPE_HEADER + GCM_TAG_SIZE then (accepted, Rejected(TooShort))
    else if envelope[0] != ENVELOPE_VERSION then (accepted, Rejected(UnknownVersion))
    else if !Acceptable(accepted, SeqOf(envelope)) then (accepted, Rejected(ReplayOrOutOfWindow))
    else (accepted + {SeqOf(envelope)}, OpenEnvelope(c, base, envelope))
  }

  /** The header carries the number, its most significant byte first. */
  ghost predicate HeaderBits(envelope: Bytes, number: Uint64)
    requires |envelope| >= 9
  {
    forall i, k: nat | 1 <= i < 9 && k < 8 :: Bit(envelope[i], k) <==> Bit(number, 8 * (8 - i) + k)
  }

  /** What an envelope is made of: the version, the number, and the text sealed under the nonce
      of that number. */
  lemma EnvelopeLayout(c: Aead, base: Nonce, number: Uint64, plaintext: Bytes) returns (nonce: Nonce)
    ensures NonceBits(nonce, base, number)
    ensures var e := Envelope(c, base, number, plaintext);
            |e| >= 9 && e[0] == 1 && HeaderBits(e, number) && e[9..] == c.seal(nonce, plaintext)
  {
    nonce := NonceFor(base, number);
    NonceForBits(base, number);
    var e := Envelope(c, base, number, plaintext);
    forall i, k: nat | 1 <= i < 9 && k < 8 ensures Bit(e[i], k) <==> Bit(number, 8 * (8 - i) + k) {
      assert e[i] == PutBE(number, 8)[i - 1];
      BigEndianBits(number, 8, i - 1, k);
    }
  }

  /** What a receiver does, from the bytes: too short and unknown versions are turned away and
      leave no trace; else the number in the header decides, and what the window takes is opened
      under the nonce of that number. */
  lemma ReceiveMeaning(c: Aead, base: Nonce, accepted: set<nat>, e: Bytes) returns (number: Uint64, nonce: Nonce)
    ensures |e| < 25 ==> Receive(c, base, accepted, e) == (accepted, Rejected(TooShort))
    ensures |e| >= 25 && e[0] != 1 ==> Receive(c, base, accepted, e) == (accepted, Rejected(UnknownVersion))
    ensures |e| >= 25 && e[0] == 1 ==>
              && HeaderBits(e, number) && NonceBits(nonce, base, number)
              && Receive(c, base, accepted, e)
                 == if number == 0 || number in accepted || exists a | a in accepted :: a >= number + 64
                    then (accepted, Rejected(ReplayOrOutOfWindow))
                    else (accepted + {number},
                          match c.open(nonce, e[9..])
                          case Opened(p) => Plain(p)
                          case NotAuthentic => Rejected(OpenFailed))
  {
    number, nonce := 0, NonceFor(base, 0);
    if |e| >= 25 {
      number := SeqOf(e);
      nonce := NonceFor(base, number);
      NonceForBits(base, number);
      BytesRoundTrip(e[1..9]);
      forall i, k: nat | 1 <= i < 9 && k < 8 ensures Bit(e[i], k) <==> Bit(number, 8 * (8 - i) + k) {
        assert e[i] == e[1..9][i - 1] == PutBE(number, 8)[i - 1];
        BigEndianBits(number, 8, i - 1, k);
      }
    }
  }

  /** The four HKDF outputs, in the order they are read. */
  datatype KeyMaterial = KeyMaterial(m2a: Aead, a2m: Aead, m2aNonce: Nonce, a2mNonce: Nonce)

  class Session {
    const sendCipher: Aead
    const recvCipher: Aead
    const sendNonce: Nonce
    const recvNonce: Nonce
    const recvWindow: ReplayWindow
    var sendSeq: Uint64

    ghost predicate Valid()
      reads this, recvWindow
    {
      recvWindow.Valid()
    }

    /** The direction assignment of DeriveSession. */
    constructor (keys: KeyMaterial, isMaster: bool)
      ensures Valid() && fresh(recvWindow)
      ensures sendSeq == 0 && recvWindow.accepted == {}
      ensures isMaster ==> sendCipher == keys.m2a && recvCipher == keys.a2m
      ensures isMaster ==> sendNonce == keys.m2aNonce && recvNonce == keys.a2mNonce
      ensures !isMaster ==> sendCipher == keys.a2m && recvCipher == keys.m2a
      ensures !isMaster ==> sendNonce == keys.a2mNonce && recvNonce == keys.m2aNonce
    {
      if isMaster {
        sendCipher, recvCipher := keys.m2a, keys.a2m;
        sendNonce, recvNonce := keys.m2aNonce, keys.a2mNonce;
      } else {
        sendCipher, recvCipher := keys.a2m, keys.m2a;
        sendNonce, recvNonce := keys.a2mNonce, keys.m2aNonce;
      }
      recvWindow := new ReplayWindow();
      sendSeq := 0;
    }

    /** Numbers, seals and frames one message. */
    method Encrypt(plaintext: Bytes) returns (out: Bytes)
      modifies this`sendSeq
      ensures sendSeq == NextSeq(old(sendSeq)) == (old(sendSeq) + 1) % 0x1_0000_0000_0000_0000
      ensures out == Envelope(sendCipher, sendNonce, sendSeq, plaintext)
    {
      sendSeq := (sendSeq + 1) % TWO64;
      var nonce := MakeNonce(sendNonce, sendSeq);
      var ciphertext := sendCipher.seal(nonce, plaintext);
      out := [ENVELOPE_VERSION] + PutBE(sendSeq, 8) + ciphertext;
    }

    /** Parses and opens one envelope. */
    method Decrypt(envelope: Bytes) returns (r: Result)
      requires Valid()
      modifies recvWindow
      ensures Valid()
      ensures (recvWindow.accepted, r) == Receive(recvCipher, recvNonce, old(recvWindow.accepted), envelope)
    {
      if |envelope| < ENVELOPE_HEADER + GCM_TAG_SIZE {
        return Rejected(TooShort);
      }
      if envelope[0] != ENVELOPE_VERSION {
        return Rejected(UnknownVersion);
      }
      var number := SeqOf(envelope);
      var ok := recvWindow.Check(number);
      if !ok {
        return Rejected(ReplayOrOutOfWindow);
      }
      var nonce := MakeNonce(recvNonce, number);
      var answer := recvCipher.open(nonce, envelope[ENVELOPE_HEADER..]);
      match answer
      case Opened(p) => return Plain(p);
      case NotAuthentic => return Rejected(OpenFailed);
    }
  }
}
