/** The encrypted file formats of `src/auth/store.rs`, over an abstract authenticated cipher. */
module Envelope {
  import opened Octets

  type Bytes = seq<Byte>

  const NONCE_SIZE := 12

  /** The ASCII bytes of PLASMATE. */
  const MAGIC: Bytes := [80, 76, 65, 83, 77, 65, 84, 69]
  const HEADER_V1: Bytes := MAGIC + [1]

  /** A cipher: key, nonce, text and associated data give a ciphertext, and back if it is authentic. */
  datatype Cipher = Cipher(
    seal: (Bytes, Bytes, Bytes, Bytes) -> Bytes, open: (Bytes, Bytes, Bytes, Bytes) -> Option<Bytes>)

  /** What the model asks of the cipher: a box opens to a text exactly when it is that text sealed, and how long a box
    * is depends on the length of the text alone. */
  ghost predicate Authentic(c: Cipher) {
    && (forall key, nonce, box, data, text ::
          c.open(key, nonce, box, data) == Some(text) <==> box == c.seal(key, nonce, text, data))
    && (forall key, nonce, data, k, n, d, text :: |c.seal(key, nonce, text, data)| == |c.seal(k, n, text, d)|)
  }

  lemma OpensTo(c: Cipher, key: Bytes, nonce: Bytes, box: Bytes, data: Bytes, text: Bytes)
    requires Authentic(c)
    ensures c.open(key, nonce, box, data) == Some(text) <==> box == c.seal(key, nonce, text, data)
  {
  }

  datatype Opened =
    | Text(bytes: Bytes) | MissingEnvelope | UnsupportedVersion(version: Option<Byte>) | TooShort | NotAuthentic

  function EncryptWithNonce(c: Cipher, text: Bytes, key: Bytes, nonce: Bytes): Bytes {
    HEADER_V1 + nonce + c.seal(key, nonce, text, HEADER_V1)
  }

  predicate StartsWith(data: Bytes, prefix: Bytes) { |prefix| <= |data| && data[..|prefix|] == prefix }

  function OpenAt(c: Cipher, payload: Bytes, key: Bytes, associated: Bytes): Opened {
    if |payload| < NONCE_SIZE then TooShort
    else
      match c.open(key, payload[..NONCE_SIZE], payload[NONCE_SIZE..], associated)
      case Some(text) => Text(text)
      case None => NotAuthentic
  }

  function Decrypt(c: Cipher, data: Bytes, key: Bytes): Opened {
    if !StartsWith(data, MAGIC) then MissingEnvelope
    else if !StartsWith(data, HEADER_V1) then
      UnsupportedVersion(if |data| > |MAGIC| then Some(data[|MAGIC|]) else None)
    else OpenAt(c, data[|HEADER_V1|..], key, HEADER_V1)
  }

  function DecryptLegacy(c: Cipher, data: Bytes, key: Bytes): Opened { OpenAt(c, data, key, []) }

  /** How a loader opens a file that is not plain JSON. */
  function OpenFile(c: Cipher, data: Bytes, key: Bytes): Opened {
    if StartsWith(data, MAGIC) then Decrypt(c, data, key) else DecryptLegacy(c, data, key)
  }

  /** An envelope opens to what was sealed in it, and is never taken for the unversioned format. */
  lemma EnvelopeRoundTrip(c: Cipher, text: Bytes, key: Bytes, nonce: Bytes)
    requires Authentic(c) && |nonce| == NONCE_SIZE
    ensures OpenFile(c, EncryptWithNonce(c, text, key, nonce), key) == Text(text)
  {
    var sealed := c.seal(key, nonce, text, HEADER_V1);
    var data := EncryptWithNonce(c, text, key, nonce);
    assert data[..9] == HEADER_V1 && HEADER_V1[..8] == MAGIC;
    assert data[..8] == HEADER_V1[..8];
    var payload := data[9..];
    assert payload == nonce + sealed;
    assert payload[..NONCE_SIZE] == nonce && payload[NONCE_SIZE..] == sealed;
    OpensTo(c, key, nonce, sealed, HEADER_V1, text);
  }

  /** An unversioned file opens to its text if and only if its nonce does not begin with the magic bytes. Otherwise it
    * is taken for an envelope: of an unknown version, or of version 1 with its parts in the wrong places. */
  lemma LegacyRoundTrip(c: Cipher, text: Bytes, key: Bytes, nonce: Bytes)
    requires Authentic(c) && |nonce| == NONCE_SIZE
    ensures var data := nonce + c.seal(key, nonce, text, []);
            && (OpenFile(c, data, key) == Text(text) <==> !StartsWith(nonce, MAGIC))
            && (StartsWith(nonce, MAGIC) && nonce[8] != 1 ==>
                  OpenFile(c, data, key) == UnsupportedVersion(Some(nonce[8])))
  {
    var sealed := c.seal(key, nonce, text, []);
    var data := nonce + sealed;
    assert data[..NONCE_SIZE] == nonce && data[NONCE_SIZE..] == sealed;
    assert data[..8] == nonce[..8];
    if StartsWith(nonce, MAGIC) {
      if nonce[8] == 1 {
        TakenForVersion1(c, data, sealed, text, key, nonce);
      } else {
        assert data[..9][8] == nonce[8] && HEADER_V1[8] == 1;
      }
    } else {
      OpensTo(c, key, nonce, sealed, [], text);
    }
  }

  /** Read as an envelope, an unversioned file has too short a box to hold its own text. */
  lemma TakenForVersion1(c: Cipher, data: Bytes, sealed: Bytes, text: Bytes, key: Bytes, nonce: Bytes)
    requires Authentic(c) && |nonce| == NONCE_SIZE && StartsWith(nonce, MAGIC) && nonce[8] == 1
    requires sealed == c.seal(key, nonce, text, []) && data == nonce + sealed
    ensures OpenFile(c, data, key) != Text(text)
  {
    var payload := data[9..];
    if |payload| >= NONCE_SIZE {
      var box := payload[NONCE_SIZE..];
      assert |box| == |sealed| - 9;
      assert |c.seal(key, payload[..NONCE_SIZE], text, HEADER_V1)| == |sealed|;
      OpensTo(c, key, payload[..NONCE_SIZE], box, HEADER_V1, text);
    }
    assert data[..8] == nonce[..8];
  }

  /** A file that holds a text in the old format does not begin with the magic bytes of the new one. */
  ghost predicate IsLegacy(c: Cipher, data: Bytes, key: Bytes, nonce: Bytes, text: Bytes) {
    |nonce| == 12 && data == nonce + c.seal(key, nonce, text, []) && !StartsWith(nonce, MAGIC)
  }

  /** An envelope is the magic bytes, the version, the nonce and the box, which is sealed together with the header. */
  ghost predicate IsEnvelope(c: Cipher, data: Bytes, key: Bytes, nonce: Bytes, text: Bytes) {
    var header := [80, 76, 65, 83, 77, 65, 84, 69, 1];
    |nonce| == 12 && data == header + nonce + c.seal(key, nonce, text, header)
  }

  lemma OpensAtIff(c: Cipher, payload: Bytes, key: Bytes, associated: Bytes, text: Bytes)
    requires Authentic(c)
    ensures OpenAt(c, payload, key, associated) == Text(text)
       <==> exists nonce: Bytes :: |nonce| == 12 && payload == nonce + c.seal(key, nonce, text, associated)
  {
    if |payload| >= 12 {
      assert payload == payload[..12] + payload[12..];
      OpensTo(c, key, payload[..12], payload[12..], associated, text);
    }
    if nonce: Bytes :| |nonce| == 12 && payload == nonce + c.seal(key, nonce, text, associated) {
      assert payload[..12] == nonce && payload[12..] == c.seal(key, nonce, text, associated);
    }
  }

  lemma HeaderBytes()
    ensures HEADER_V1 == [80, 76, 65, 83, 77, 65, 84, 69, 1] && |HEADER_V1| == 9 && HEADER_V1[..8] == MAGIC
  {
  }

  lemma EnvelopeParts(c: Cipher, data: Bytes, key: Bytes, nonce: Bytes, text: Bytes)
    ensures IsEnvelope(c, data, key, nonce, text)
       <==> StartsWith(data, HEADER_V1) && |nonce| == 12 && data[9..] == nonce + c.seal(key, nonce, text, HEADER_V1)
  {
    HeaderBytes();
    var sealed := c.seal(key, nonce, text, HEADER_V1);
    assert HEADER_V1 + (nonce + sealed) == HEADER_V1 + nonce + sealed;
    if StartsWith(data, HEADER_V1) {
      assert data == data[..9] + data[9..];
    }
    if data == HEADER_V1 + nonce + sealed {
      assert data[..9] == HEADER_V1 && data[9..] == nonce + sealed;
    }
  }

  lemma LegacyParts(c: Cipher, data: Bytes, key: Bytes, nonce: Bytes, text: Bytes)
    ensures IsLegacy(c, data, key, nonce, text)
       <==> !StartsWith(data, MAGIC) && |nonce| == 12 && data == nonce + c.seal(key, nonce, text, [])
  {
    if |nonce| == 12 && data == nonce + c.seal(key, nonce, text, []) {
      assert data[..8] == nonce[..8];
    }
  }

  lemma HeaderBeginsWithMagic(data: Bytes)
    ensures StartsWith(data, HEADER_V1) ==> StartsWith(data, MAGIC)
  {
    HeaderBytes();
    if StartsWith(data, HEADER_V1) {
      assert data[..8] == data[..9][..8];
    }
  }

  /** A file opens to a text exactly if it is an envelope of it, or holds it in the old format. */
  lemma OpensIff(c: Cipher, data: Bytes, key: Bytes, text: Bytes)
    requires Authentic(c)
    ensures OpenFile(c, data, key) == Text(text)
       <==> exists nonce :: IsEnvelope(c, data, key, nonce, text) || IsLegacy(c, data, key, nonce, text)
  {
    forall nonce
      ensures IsEnvelope(c, data, key, nonce, text)
         <==> StartsWith(data, HEADER_V1) && |nonce| == 12 && data[9..] == nonce + c.seal(key, nonce, text, HEADER_V1)
      ensures IsLegacy(c, data, key, nonce, text)
         <==> !StartsWith(data, MAGIC) && |nonce| == 12 && data == nonce + c.seal(key, nonce, text, [])
    {
      EnvelopeParts(c, data, key, nonce, text);
      LegacyParts(c, data, key, nonce, text);
    }
    HeaderBytes();
    HeaderBeginsWithMagic(data);
    hide IsEnvelope, IsLegacy, StartsWith, OpenAt;
    if StartsWith(data, HEADER_V1) {
      HeaderFits(data);
      OpensAtIff(c, data[9..], key, HEADER_V1, text);
    } else {
      OpensAtIff(c, data, key, [], text);
    }
  }

  lemma HeaderFits(data: Bytes)
    ensures StartsWith(data, HEADER_V1) ==> |data| >= 9
  {
  }
}
