/**
 The checksummed stream cipher. The keystream (CTR mode, section 6.5 of NIST SP 800-38A) is a byte
 per position and the digest a 64-bit value per counter, message and key; both are parameters.
 */
module Cipher {
  import opened Common
  import opened Bits
  import opened Codec
  import opened BinaryIO

  type u64 = n: nat | n < TWO_64

  const HASH_SIZE: nat := 8

  datatype Suite = Suite(keystream: nat -> byte, digest: (u64, Bytes, Bytes) -> u64, key: Bytes)

  /** One direction: the message counter and the position in the keystream. */
  datatype Channel = Channel(counter: u64, position: nat)

  function XorByte(a: byte, k: byte): byte {
    PowValues();
    XorBound(a, k, 8);
    BitXor(a, k)
  }

  function XorStream(ks: nat -> byte, position: nat, data: Bytes): (r: Bytes)
    ensures |r| == |data|
    ensures forall i :: 0 <= i < |data| ==> r[i] == XorByte(data[i], ks(position + i))
  {
    seq(|data|, i requires 0 <= i < |data| => XorByte(data[i], ks(position + i)))
  }

  lemma XorStreamTwice(ks: nat -> byte, position: nat, data: Bytes)
    ensures XorStream(ks, position, XorStream(ks, position, data)) == data
  {
    hide XorByte;
    var once := XorStream(ks, position, data);
    forall i | 0 <= i < |data|
      ensures XorStream(ks, position, once)[i] == data[i]
    {
      XorByteTwice(data[i], ks(position + i));
    }
  }

  lemma XorByteTwice(a: byte, k: byte)
    ensures XorByte(XorByte(a, k), k) == a
  {
    XorCancels(a, k);
  }

  function Next(c: Channel, bytes: nat): Channel {
    Channel((c.counter + 1) % TWO_64, c.position + bytes)
  }

  function Seal(s: Suite, c: Channel, message: Bytes): (r: (Bytes, Channel))
    ensures |r.0| == |message| + HASH_SIZE
  {
    var buffer := message + EncLE(s.digest(c.counter, message, s.key), 8);
    (XorStream(s.keystream, c.position, buffer), Next(c, |buffer|))
  }

  /** `Overrun`: the input is shorter than a checksum, which would be read before the buffer's start. */
  datatype Opening = Opened(message: Bytes) | Mismatch | Overrun

  /** The counter and the position advance whether or not the checksum matches. */
  function Open(s: Suite, c: Channel, sealed: Bytes): (Opening, Channel) {
    if |sealed| < HASH_SIZE then (Overrun, c.(position := c.position + |sealed|))
    else
      var plain := XorStream(s.keystream, c.position, sealed);
      var message := plain[..|plain| - HASH_SIZE];
      var received := FromLE(plain[|plain| - HASH_SIZE..]);
      (if received == s.digest(c.counter, message, s.key) then Opened(message) else Mismatch, Next(c, |sealed|))
  }

  /** In lockstep, a sealed message opens to itself and both ends move on alike. */
  lemma OpenSealed(s: Suite, c: Channel, message: Bytes)
    ensures Open(s, c, Seal(s, c, message).0) == (Opened(message), Seal(s, c, message).1)
  {
    hide XorStream, EncLE, FromLE, Pow2;
    var hash := s.digest(c.counter, message, s.key);
    var buffer := message + EncLE(hash, 8);
    XorStreamTwice(s.keystream, c.position, buffer);
    assert buffer[..|buffer| - HASH_SIZE] == message;
    assert buffer[|buffer| - HASH_SIZE..] == EncLE(hash, 8);
    WidthBounds();
    FromEncLE(hash, 8);
  }

  /**
   Byte by byte: the message and then the digest, little-endian, each under its place in the keystream;
   the counter moves on by one and the position by the message and eight.
   */
  lemma SealBytes(s: Suite, c: Channel, message: Bytes, k: nat)
    requires k < |message| + 8
    ensures |Seal(s, c, message).0| == |message| + 8
    ensures Seal(s, c, message).0[k] ==
            BitXor(if k < |message| then message[k]
                   else Digit(s.digest(c.counter, message, s.key), 256, k - |message|),
                   s.keystream(c.position + k))
    ensures Seal(s, c, message).1.counter == if c.counter == TWO_64 - 1 then 0 else c.counter + 1
    ensures Seal(s, c, message).1.position == c.position + |message| + 8
  {
    hide BitXor, EncLE, Digit;
    if k >= |message| {
      LEBytes(s.digest(c.counter, message, s.key), 8, k - |message|);
    }
  }

  /** A message opens to what it is the seal of, and to nothing else. */
  lemma OpensIff(s: Suite, c: Channel, sealed: Bytes, message: Bytes)
    ensures Open(s, c, sealed).0 == Opened(message) <==> sealed == Seal(s, c, message).0
  {
    hide XorStream, EncLE, FromLE;
    if sealed == Seal(s, c, message).0 {
      OpenSealed(s, c, message);
    }
    if Open(s, c, sealed).0 == Opened(message) {
      var plain := XorStream(s.keystream, c.position, sealed);
      var n := |plain| - HASH_SIZE;
      EncFromLE(plain[n..]);
      assert plain == plain[..n] + plain[n..];
      XorStreamTwice(s.keystream, c.position, sealed);
    }
  }

  /** The checksum fails exactly on what is the seal of no message; the channel moves on all the same. */
  lemma MismatchIff(s: Suite, c: Channel, sealed: Bytes)
    requires |sealed| >= 8
    ensures Open(s, c, sealed).0 == Mismatch <==> forall m: Bytes :: sealed != Seal(s, c, m).0
    ensures Open(s, c, sealed).1.counter == if c.counter == TWO_64 - 1 then 0 else c.counter + 1
    ensures Open(s, c, sealed).1.position == c.position + |sealed|
  {
    hide XorStream, FromLE, Seal;
    var opening := Open(s, c, sealed).0;
    if opening.Opened? {
      OpensIff(s, c, sealed, opening.message);
    }
    forall m: Bytes | sealed == Seal(s, c, m).0
      ensures opening.Opened?
    {
      OpensIff(s, c, sealed, m);
    }
  }

  function SealAll(s: Suite, c: Channel, messages: seq<Bytes>): (seq<Bytes>, Channel)
    decreases |messages|
  {
    if messages == [] then ([], c)
    else
      var (sealed, c') := Seal(s, c, messages[0]);
      var (rest, end) := SealAll(s, c', messages[1..]);
      ([sealed] + rest, end)
  }

  function OpenAll(s: Suite, c: Channel, sealed: seq<Bytes>): (seq<Opening>, Channel)
    decreases |sealed|
  {
    if sealed == [] then ([], c)
    else
      var (message, c') := Open(s, c, sealed[0]);
      var (rest, end) := OpenAll(s, c', sealed[1..]);
      ([message] + rest, end)
  }

  function TotalBytes(messages: seq<Bytes>): nat {
    if messages == [] then 0 else |messages[0]| + TotalBytes(messages[1..])
  }

  /** After any list, the counter has moved on by its length and the position by its bytes and eight each. */
  lemma {:induction false} SealAllMoves(s: Suite, c: Channel, messages: seq<Bytes>)
    ensures SealAll(s, c, messages).1.counter == (c.counter + |messages|) % TWO_64
    ensures SealAll(s, c, messages).1.position == c.position + TotalBytes(messages) + 8 * |messages|
    decreases |messages|
  {
    hide Seal;
    if messages != [] {
      var c' := Seal(s, c, messages[0]).1;
      SealMoves(s, c, messages[0]);
      SealAllMoves(s, c', messages[1..]);
      CounterWraps(c.counter, |messages[1..]|);
    }
  }

  lemma SealMoves(s: Suite, c: Channel, message: Bytes)
    ensures Seal(s, c, message).1.counter == (c.counter + 1) % TWO_64
    ensures Seal(s, c, message).1.position == c.position + |message| + 8
  {
    hide XorStream, EncLE;
  }

  lemma CounterWraps(counter: u64, n: nat)
    ensures ((counter + 1) % TWO_64 + n) % TWO_64 == (counter + (n + 1)) % TWO_64
  {}

  /** Any list of messages, delivered in order, is recovered, and both channels end equal. */
  lemma {:induction false} Lockstep(s: Suite, c: Channel, messages: seq<Bytes>)
    ensures var (plain, end) := OpenAll(s, c, SealAll(s, c, messages).0);
            && end == SealAll(s, c, messages).1
            && |plain| == |messages|
            && forall i :: 0 <= i < |messages| ==> plain[i] == Opened(messages[i])
    decreases |messages|
  {
    hide Seal, Open;
    if messages != [] {
      var (sealed, c') := Seal(s, c, messages[0]);
      OpenSealed(s, c, messages[0]);
      Lockstep(s, c', messages[1..]);
      var all := SealAll(s, c, messages).0;
      assert all[0] == sealed && all[1..] == SealAll(s, c', messages[1..]).0;
    }
  }

  class AesEncryptor {
    const suite: Suite
    var encryptBlock: Channel
    var decryptBlock: Channel

    /** Key agreement is not modelled: both directions start wherever the handshake leaves them. */
    constructor (suite: Suite, encryptBlock: Channel, decryptBlock: Channel)
      ensures this.suite == suite && this.encryptBlock == encryptBlock && this.decryptBlock == decryptBlock
    {
      this.suite, this.encryptBlock, this.decryptBlock := suite, encryptBlock, decryptBlock;
    }

    method CalculateChecksum(counter: u64, input: Bytes) returns (hash: u64)
      ensures hash == suite.digest(counter, input, suite.key)
    {
      hash := suite.digest(counter, input, suite.key);
    }

    method Encrypt(input: Bytes) returns (output: Bytes)
      modifies this`encryptBlock
      ensures (output, encryptBlock) == Seal(suite, old(encryptBlock), input)
    {
      hide EncLE;
      var hash := CalculateChecksum(encryptBlock.counter, input);
      encryptBlock := encryptBlock.(counter := (encryptBlock.counter + 1) % TWO_64);
      var buffer := input + EncLE(hash, 8);
      output := XorStream(suite.keystream, encryptBlock.position, buffer);
      encryptBlock := encryptBlock.(position := encryptBlock.position + |buffer|);
    }

    method Decrypt(input: Bytes) returns (output: Opening)
      modifies this`decryptBlock
      ensures (output, decryptBlock) == Open(suite, old(decryptBlock), input)
    {
      hide XorByte, FromLE;
      var plain := XorStream(suite.keystream, decryptBlock.position, input);
      decryptBlock := decryptBlock.(position := decryptBlock.position + |input|);
      if |input| < HASH_SIZE {
        return Overrun;
      }
      var ri := new BinaryReader(plain[|input| - HASH_SIZE..]);
      var receivedHash := ri.ReadLE(8);
      assert plain[|input| - HASH_SIZE..][0..8] == plain[|input| - HASH_SIZE..];
      var calculatedHash := CalculateChecksum(decryptBlock.counter, plain[..|input| - HASH_SIZE]);
      decryptBlock := decryptBlock.(counter := (decryptBlock.counter + 1) % TWO_64);
      if receivedHash != Some(calculatedHash) {
        return Mismatch;
      }
      output := Opened(plain[..|input| - HASH_SIZE]);
    }
  }
}
