/** The wire form of a text: base64 of a random nonce followed by a public-key box. */
module Envelope {
  import opened Common
  import opened Base64

  const NONCE_BYTES := 24
  const MAC_BYTES := 16
  const KEY_BYTES := 32

  /** crypto_box: seal(text, nonce, recipient's public, sender's private),
      open(box, nonce, sender's public, recipient's private), and the public key of a private one. */
  datatype Box = Box(seal: (Text, Text, Text, Text) -> Option<Text>,
                     open: (Text, Text, Text, Text) -> Option<Text>,
                     publicOf: Text -> Text)

  /** What is assumed of the primitive: a box is 16 bytes longer than its text, and the two
      ends' keys open what they seal. */
  ghost predicate Ideal(box: Box) {
    && (forall text, nonce, pk, sk ::
          box.seal(text, nonce, pk, sk).Some? ==> |box.seal(text, nonce, pk, sk).value| == |text| + MAC_BYTES)
    && (forall b, nonce, pk, sk ::
          box.open(b, nonce, pk, sk).Some? ==> |box.open(b, nonce, pk, sk).value| + MAC_BYTES == |b|)
    && (forall text, nonce, from, to ::
          box.seal(text, nonce, box.publicOf(to), from).Some? ==>
            box.open(box.seal(text, nonce, box.publicOf(to), from).value, nonce, box.publicOf(from), to) == Some(text))
  }

  /** base64_to_bin into a 32-byte buffer. */
  function Key(b64: string): Option<Text> {
    var k := Decode(b64);
    if k.Some? && |k.value| == KEY_BYTES then k else None
  }

  function Encrypt(box: Box, text: Text, recipient: string, sender: string, nonce: Text): Option<string> {
    var pk, sk := Key(recipient), Key(sender);
    if pk.None? || sk.None? then None
    else
      var sealed := box.seal(text, nonce, pk.value, sk.value);
      if sealed.None? then None else Some(Encode(nonce + sealed.value))
  }

  function Decrypt(box: Box, cipher: string, sender: string, recipient: string): Option<Text> {
    var pk, sk, blob := Key(sender), Key(recipient), Decode(cipher);
    if pk.None? || sk.None? || blob.None? || |blob.value| < NONCE_BYTES + MAC_BYTES then None
    else box.open(blob.value[NONCE_BYTES..], blob.value[..NONCE_BYTES], pk.value, sk.value)
  }

  // ---------------------------------------------------------------- what the envelope guarantees

  /** Decrypting with the matching keys gives back every text, the empty one included. */
  lemma RoundTrip(box: Box, text: Text, nonce: Text, sender: string, recipient: string, from: string, to: string)
    requires Ideal(box) && |nonce| == 24
    requires Key(from).Some? && Key(sender) == Some(box.publicOf(Key(from).value))
    requires Key(to).Some? && Key(recipient) == Some(box.publicOf(Key(to).value))
    ensures
      var cipher := Encrypt(box, text, recipient, from, nonce);
      cipher.Some? ==> Decrypt(box, cipher.value, sender, to) == Some(text)
  {
    var sealed := box.seal(text, nonce, Key(recipient).value, Key(from).value);
    if sealed.Some? {
      var blob := nonce + sealed.value;
      DecodeOfEncode(blob);
      assert blob[..NONCE_BYTES] == nonce && blob[NONCE_BYTES..] == sealed.value;
    }
  }

  /** A key is the base64 form of exactly 32 bytes. */
  lemma KeyIff(b64: string, k: Text)
    ensures Key(b64) == Some(k) <==> b64 == Encode(k) && |k| == 32
  {
    DecodeIff(b64, k);
  }

  /** A text is encrypted exactly if both keys are well formed and the box can be sealed, and then to
      the base64 form of the nonce followed by the box. */
  lemma EncryptIff(box: Box, text: Text, recipient: string, sender: string, nonce: Text, cipher: string)
    ensures Encrypt(box, text, recipient, sender, nonce) == Some(cipher) <==>
            exists pk: Text, sk: Text, sealed: Text ::
              && recipient == Encode(pk) && |pk| == 32 && sender == Encode(sk) && |sk| == 32
              && box.seal(text, nonce, pk, sk) == Some(sealed) && cipher == Encode(nonce + sealed)
  {
    hide Encode, Decode;
    forall pk: Text ensures Key(recipient) == Some(pk) <==> recipient == Encode(pk) && |pk| == 32 {
      KeyIff(recipient, pk);
    }
    forall sk: Text ensures Key(sender) == Some(sk) <==> sender == Encode(sk) && |sk| == 32 {
      KeyIff(sender, sk);
    }
  }

  /** A ciphertext is accepted exactly if both keys are well formed and it is the base64 form of a
      nonce and a box that opens with them. */
  lemma DecryptIff(box: Box, cipher: string, sender: string, recipient: string, text: Text)
    ensures Decrypt(box, cipher, sender, recipient) == Some(text) <==>
            exists pk: Text, sk: Text, nonce: Text, b: Text ::
              && sender == Encode(pk) && |pk| == 32 && recipient == Encode(sk) && |sk| == 32
              && cipher == Encode(nonce + b) && |nonce| == 24 && |b| >= 16
              && box.open(b, nonce, pk, sk) == Some(text)
  {
    hide Encode, Decode;
    forall pk: Text ensures Key(sender) == Some(pk) <==> sender == Encode(pk) && |pk| == 32 {
      KeyIff(sender, pk);
    }
    forall sk: Text ensures Key(recipient) == Some(sk) <==> recipient == Encode(sk) && |sk| == 32 {
      KeyIff(recipient, sk);
    }
    if Decrypt(box, cipher, sender, recipient) == Some(text) {
      EncodeOfDecode(cipher);
      var blob := Decode(cipher).value;
      assert blob == blob[..24] + blob[24..];
      assert box.open(blob[24..], blob[..24], Key(sender).value, Key(recipient).value) == Some(text);
    }
    forall pk: Text, sk: Text, nonce: Text, b: Text |
        && sender == Encode(pk) && |pk| == 32 && recipient == Encode(sk) && |sk| == 32
        && cipher == Encode(nonce + b) && |nonce| == 24 && |b| >= 16
        && box.open(b, nonce, pk, sk) == Some(text)
      ensures Decrypt(box, cipher, sender, recipient) == Some(text)
    {
      DecodeOfEncode(nonce + b);
      assert (nonce + b)[..24] == nonce && (nonce + b)[24..] == b;
    }
  }

  /** The length on the wire, and that a buffer as long as the base64 text always holds what it decodes to. */
  lemma WireLength(box: Box, text: Text, nonce: Text, recipient: string, from: string)
    requires Ideal(box) && |nonce| == 24 && Encrypt(box, text, recipient, from, nonce).Some?
    ensures
      var cipher := Encrypt(box, text, recipient, from, nonce).value;
      |cipher| == (|text| + 42) / 3 * 4 && Decode(cipher).Some? && |Decode(cipher).value| == |text| + 40 <= |cipher|
  {
    var sealed := box.seal(text, nonce, Key(recipient).value, Key(from).value);
    EncodedLength(nonce + sealed.value);
    DecodeOfEncode(nonce + sealed.value);
  }

  lemma DecodeFits(s: string)
    ensures Decode(s).Some? ==> |Decode(s).value| <= |s|
  {
    if Decode(s).Some? {
      EncodeOfDecode(s);
      EncodedLength(Decode(s).value);
    }
  }

  // ---------------------------------------------------------------- the opener of the protocol

  /** decrypt_message as the nodes use it: a node's id is its public key. */
  function OpenerOf(box: Box, keys: Id -> string): (string, Id, Id) -> Option<Text> {
    (cipher, sender, reader) => Decrypt(box, cipher, sender, keys(reader))
  }

  /** The id is the public half of the node's key pair. */
  predicate Owns(box: Box, keys: Id -> string, n: Id) {
    Key(keys(n)).Some? && Key(n) == Some(box.publicOf(Key(keys(n)).value))
  }

  /** What the protocol assumes of a send or edit: if encryption worked, the reader can read it. */
  lemma SealedIsReadable(box: Box, keys: Id -> string, a: Id, to: Id, text: Text, nonce: Text)
    requires Ideal(box) && Owns(box, keys, a) && Owns(box, keys, to) && |nonce| == 24
    ensures
      var cipher := Encrypt(box, text, to, keys(a), nonce);
      cipher.Some? ==> OpenerOf(box, keys)(cipher.value, a, to) == Some(text)
  {
    RoundTrip(box, text, nonce, a, to, keys(a), keys(to));
  }

  /** The assumption can be met: a box that hides nothing. */
  function ClearBox(): Box {
    Box((text, nonce, pk, sk) => Some(text + seq(MAC_BYTES, i => 0)),
        (b, nonce, pk, sk) => if |b| < MAC_BYTES then None else Some(b[..|b| - MAC_BYTES]),
        sk => sk)
  }

  lemma IdealIsPossible()
    ensures Ideal(ClearBox())
  {
    forall text: Text, nonce: Text, from: Text, to: Text
      ensures ClearBox().open(ClearBox().seal(text, nonce, to, from).value, nonce, from, to) == Some(text)
    {
      var pad: Text := seq(MAC_BYTES, i => 0);
      assert (text + pad)[..|text|] == text;
    }
  }

  // ---------------------------------------------------------------- the buffers

  /** std::copy into a buffer. */
  method CopyInto(buffer: array<Byte>, at: nat, bytes: Text)
    requires at + |bytes| <= buffer.Length
    modifies buffer
    ensures buffer[..] == old(buffer[..at]) + bytes + old(buffer[at + |bytes|..])
  {
    for i := 0 to |bytes|
      invariant buffer[..at] == old(buffer[..at])
      invariant buffer[at..at + i] == bytes[..i]
      invariant buffer[at + i..] == old(buffer[at + i..])
    {
      buffer[at + i] := bytes[i];
    }
  }

  /** sodium_memzero. */
  method Wipe(buffer: array<Byte>)
    modifies buffer
    ensures forall i | 0 <= i < buffer.Length :: buffer[i] == 0
  {
    for i := 0 to buffer.Length
      invariant forall j | 0 <= j < i :: buffer[j] == 0
    {
      buffer[i] := 0;
    }
  }

  /** sodium_base642bin: fails on malformed text and when the buffer is too small. */
  method Base642Bin(buffer: array<Byte>, b64: string) returns (ok: bool, len: nat)
    modifies buffer
    ensures ok <==> Decode(b64).Some? && |Decode(b64).value| <= buffer.Length
    ensures ok ==> len == |Decode(b64).value| && buffer[..len] == Decode(b64).value
  {
    var bytes := Decode(b64);
    if bytes.None? || |bytes.value| > buffer.Length {
      return false, 0;
    }
    CopyInto(buffer, 0, bytes.value);
    return true, |bytes.value|;
  }

  /** base64_to_bin: the text must decode to exactly as many bytes as the buffer holds. */
  method Base64ToBin(b64: string, buffer: array<Byte>) returns (ok: bool)
    modifies buffer
    ensures ok <==> Decode(b64).Some? && |Decode(b64).value| == buffer.Length
    ensures ok ==> buffer[..] == Decode(b64).value
  {
    var rc, len := Base642Bin(buffer, b64);
    ok := rc && len == buffer.Length;
  }

  /** sodium_bin2base64: the text and a terminating zero. */
  method Bin2Base64(buffer: array<char>, bytes: Text)
    requires |Encode(bytes)| < buffer.Length
    modifies buffer
    ensures buffer[..|Encode(bytes)|] == Encode(bytes) && buffer[|Encode(bytes)|] == '\0'
  {
    hide Encode;
    var s := Encode(bytes);
    for i := 0 to |s|
      invariant buffer[..i] == s[..i]
    {
      buffer[i] := s[i];
    }
    buffer[|s|] := '\0';
  }

  /** bin_to_base64: the buffer is exactly long enough, and the zero is cut off again. */
  method BinToBase64(bytes: Text) returns (b64: string)
    ensures b64 == Encode(bytes)
  {
    hide Encode;
    var length := (|bytes| + 2) / 3 * 4 + 1;
    EncodedLength(bytes);
    var buffer := new char[length];
    Bin2Base64(buffer, bytes);
    b64 := buffer[..length - 1];
  }

  method EncryptMessage(box: Box, text: Text, recipient: string, sender: string, random: Text)
    returns (r: Option<string>)
    requires Ideal(box) && |random| == NONCE_BYTES
    ensures r == Encrypt(box, text, recipient, sender, random)
  {
    hide Decode;
    var pk, sk := new Byte[KEY_BYTES], new Byte[KEY_BYTES];
    var ok := Base64ToBin(recipient, pk);
    if !ok { return None; }
    ok := Base64ToBin(sender, sk);
    if !ok { return None; }
    var nonce := new Byte[NONCE_BYTES];
    CopyInto(nonce, 0, random);
    assert nonce[..] == random;
    var sealed := box.seal(text, nonce[..], pk[..], sk[..]);
    Wipe(sk);
    if sealed.None? { return None; }
    var ciphertext := new Byte[|text| + MAC_BYTES];
    CopyInto(ciphertext, 0, sealed.value);
    var blob := new Byte[nonce.Length + ciphertext.Length];
    CopyInto(blob, 0, nonce[..]);
    CopyInto(blob, nonce.Length, ciphertext[..]);
    assert blob[..] == random + sealed.value;
    var b64 := BinToBase64(blob[..]);
    r := Some(b64);
  }

  method DecryptMessage(box: Box, cipher: string, sender: string, recipient: string) returns (r: Option<Text>)
    requires Ideal(box)
    ensures r == Decrypt(box, cipher, sender, recipient)
  {
    hide Decode;
    var pk, sk := new Byte[KEY_BYTES], new Byte[KEY_BYTES];
    var ok := Base64ToBin(sender, pk);
    if !ok { return None; }
    ok := Base64ToBin(recipient, sk);
    if !ok { return None; }
    var blob := new Byte[|cipher|];
    DecodeFits(cipher);
    var decoded, len := Base642Bin(blob, cipher);
    if !decoded || len < NONCE_BYTES + MAC_BYTES {
      Wipe(sk);
      return None;
    }
    var nonce, boxed := blob[..NONCE_BYTES], blob[NONCE_BYTES..len];
    assert nonce == blob[..len][..NONCE_BYTES] && boxed == blob[..len][NONCE_BYTES..];
    var plain := box.open(boxed, nonce, pk[..], sk[..]);
    Wipe(sk);
    if plain.None? { return None; }
    var decrypted := new Byte[|boxed| - MAC_BYTES];
    CopyInto(decrypted, 0, plain.value);
    assert decrypted[..] == plain.value;
    r := Some(decrypted[..]);
  }
}
