/** Encryption with padding and chaining, over any invertible function on 16-byte blocks. */
module Aes {
  import opened Options

  type Byte = bv8

  type Bytes = seq<Byte>

  const BLOCK := 16

  // ----- Padding (section 6.3 of RFC 5652)

  function ByteOf(n: nat): Byte
    requires n < 256
  {
    n as bv8
  }

  function Times(b: Byte, n: nat): (r: Bytes)
    ensures |r| == n && forall i :: 0 <= i < n ==> r[i] == b
  {
    seq(n, _ => b)
  }

  function Missing(n: nat): nat { BLOCK - n % BLOCK }

  /** PKCS7Padding. */
  function Pad(plain: Bytes): Bytes {
    plain + Times(ByteOf(Missing(|plain|)), Missing(|plain|))
  }

  /** PKCS7UnPadding: the last byte says how many bytes go; None is a panic. */
  function Unpad(padded: Bytes): Option<Bytes> {
    if padded == [] then None
    else
      var n := padded[|padded| - 1] as int;
      if n > |padded| then None else Some(padded[..|padded| - n])
  }

  /** The text ends in n bytes n, with n from 1 to 16, and fills whole blocks. */
  predicate WellPadded(s: Bytes) {
    && s != [] && |s| % BLOCK == 0
    && var n := s[|s| - 1] as int;
       1 <= n <= BLOCK && forall i :: |s| - n <= i < |s| ==> s[i] == s[|s| - 1]
  }

  lemma ByteRoundTrip(n: nat)
    requires n <= BLOCK
    ensures ByteOf(n) as int == n
  {
  }

  lemma ByteBack(b: Byte)
    ensures 0 <= b as int < 256 && ByteOf(b as int) == b
  {
  }

  /** Padding adds from 1 to 16 bytes, fills the last block, and is undone by unpadding. */
  lemma {:induction false} PadUnpad(plain: Bytes)
    ensures 1 <= |Pad(plain)| - |plain| <= BLOCK && WellPadded(Pad(plain))
    ensures Unpad(Pad(plain)) == Some(plain)
  {
    var n := Missing(|plain|);
    ByteRoundTrip(n);
    assert Pad(plain)[..|plain|] == plain;
    assert |Pad(plain)| % BLOCK == 0;
  }

  lemma {:induction false} PadInjective(a: Bytes, b: Bytes)
    requires Pad(a) == Pad(b)
    ensures a == b
  {
    PadUnpad(a);
    PadUnpad(b);
  }

  /** Unpadding checks nothing but the length: what it leaves gives the text back when padded
      again if and only if the text was well padded. */
  lemma {:induction false} UnpadPad(padded: Bytes)
    requires Unpad(padded).Some?
    ensures Pad(Unpad(padded).value) == padded <==> WellPadded(padded)
  {
    var last := padded[|padded| - 1];
    var n := last as int;
    var plain := Unpad(padded).value;
    ByteBack(last);
    if WellPadded(padded) {
      assert Missing(|plain|) == n;
      assert padded == padded[..|padded| - n] + padded[|padded| - n..];
      assert padded[|padded| - n..] == Times(last, n);
    } else {
      PadUnpad(plain);
    }
  }

  // ----- Chaining (section 6.2 of NIST SP 800-38A)

  /** A block cipher under one key. */
  datatype Cipher = Cipher(enc: Bytes -> Bytes, dec: Bytes -> Bytes)

  /** Both functions keep the length of a block. */
  ghost predicate Sized(c: Cipher) {
    forall b :: |b| == BLOCK ==> |c.enc(b)| == BLOCK && |c.dec(b)| == BLOCK
  }

  /** Each of the two functions undoes the other on 16-byte blocks. */
  ghost predicate Invertible(c: Cipher) {
    && Sized(c)
    && forall b :: |b| == BLOCK ==> c.dec(c.enc(b)) == b && c.enc(c.dec(b)) == b
  }

  function Enc(c: Cipher, b: Bytes): (r: Bytes)
    requires Sized(c) && |b| == BLOCK
    ensures |r| == BLOCK
  {
    c.enc(b)
  }

  function Dec(c: Cipher, b: Bytes): (r: Bytes)
    requires Sized(c) && |b| == BLOCK
    ensures |r| == BLOCK
  {
    c.dec(b)
  }

  lemma EncDec(c: Cipher, b: Bytes)
    requires Invertible(c) && |b| == BLOCK
    ensures Dec(c, Enc(c, b)) == b && Enc(c, Dec(c, b)) == b
  {
  }

  function Xor(a: Bytes, b: Bytes): (r: Bytes)
    requires |a| == |b|
    ensures |r| == |a| && forall i :: 0 <= i < |r| ==> r[i] == a[i] ^ b[i]
  {
    seq(|a|, i requires 0 <= i < |a| => a[i] ^ b[i])
  }

  lemma XorByteTwice(x: Byte, y: Byte)
    ensures (x ^ y) ^ y == x
  {
  }

  lemma XorTwice(a: Bytes, b: Bytes)
    requires |a| == |b|
    ensures Xor(Xor(a, b), b) == a
  {
    forall i | 0 <= i < |a| ensures Xor(Xor(a, b), b)[i] == a[i] {
      XorByteTwice(a[i], b[i]);
    }
  }

  predicate WholeBlocks(s: Bytes) { |s| % BLOCK == 0 }

  function BlockAt(s: Bytes, j: nat): (b: Bytes)
    requires BLOCK * (j + 1) <= |s|
    ensures |b| == BLOCK
  {
    s[BLOCK * j..BLOCK * (j + 1)]
  }

  /** The last block, the initial vector when there is none. */
  function LastBlock(iv: Bytes, s: Bytes): (b: Bytes)
    requires |iv| == BLOCK && WholeBlocks(s)
    ensures |b| == BLOCK
  {
    if s == [] then iv else s[|s| - BLOCK..]
  }

  function Chain(c: Cipher, iv: Bytes, s: Bytes): (r: Bytes)
    requires Sized(c) && |iv| == BLOCK && WholeBlocks(s)
    ensures |r| == |s|
  {
    if s == [] then []
    else
      var front := Chain(c, iv, s[..|s| - BLOCK]);
      front + Enc(c, Xor(s[|s| - BLOCK..], LastBlock(iv, front)))
  }

  function Unchain(c: Cipher, iv: Bytes, s: Bytes): (r: Bytes)
    requires Sized(c) && |iv| == BLOCK && WholeBlocks(s)
    ensures |r| == |s|
  {
    if s == [] then []
    else
      var front := s[..|s| - BLOCK];
      Unchain(c, iv, front) + Xor(Dec(c, s[|s| - BLOCK..]), LastBlock(iv, front))
  }

  lemma ChainStep(c: Cipher, iv: Bytes, s: Bytes, b: Bytes)
    requires Sized(c) && |iv| == BLOCK && WholeBlocks(s) && |b| == BLOCK
    ensures Chain(c, iv, s + b) == Chain(c, iv, s) + Enc(c, Xor(b, LastBlock(iv, Chain(c, iv, s))))
  {
    assert (s + b)[..|s|] == s && (s + b)[|s|..] == b;
  }

  lemma UnchainStep(c: Cipher, iv: Bytes, s: Bytes, b: Bytes)
    requires Sized(c) && |iv| == BLOCK && WholeBlocks(s) && |b| == BLOCK
    ensures Unchain(c, iv, s + b) == Unchain(c, iv, s) + Xor(Dec(c, b), LastBlock(iv, s))
  {
    assert (s + b)[..|s|] == s && (s + b)[|s|..] == b;
  }

  lemma UnchainChainStep(c: Cipher, iv: Bytes, s: Bytes, b: Bytes)
    requires Invertible(c) && |iv| == BLOCK && WholeBlocks(s) && |b| == BLOCK
    requires Unchain(c, iv, Chain(c, iv, s)) == s
    ensures Unchain(c, iv, Chain(c, iv, s + b)) == s + b
  {
    var prev := LastBlock(iv, Chain(c, iv, s));
    ChainStep(c, iv, s, b);
    UnchainStep(c, iv, Chain(c, iv, s), Enc(c, Xor(b, prev)));
    EncDec(c, Xor(b, prev));
    XorTwice(b, prev);
  }

  lemma ChainUnchainStep(c: Cipher, iv: Bytes, s: Bytes, b: Bytes)
    requires Invertible(c) && |iv| == BLOCK && WholeBlocks(s) && |b| == BLOCK
    requires Chain(c, iv, Unchain(c, iv, s)) == s
    ensures Chain(c, iv, Unchain(c, iv, s + b)) == s + b
  {
    var prev := LastBlock(iv, s);
    UnchainStep(c, iv, s, b);
    ChainStep(c, iv, Unchain(c, iv, s), Xor(Dec(c, b), prev));
    XorTwice(Dec(c, b), prev);
    EncDec(c, b);
  }

  lemma CutLast(s: Bytes) returns (front: Bytes, last: Bytes)
    requires s != [] && WholeBlocks(s)
    ensures s == front + last && WholeBlocks(front) && |last| == BLOCK
  {
    front, last := s[..|s| - BLOCK], s[|s| - BLOCK..];
  }

  /** Chaining and unchaining undo each other. */
  lemma {:induction false} UnchainChain(c: Cipher, iv: Bytes, s: Bytes)
    requires Invertible(c) && |iv| == BLOCK && WholeBlocks(s)
    ensures Unchain(c, iv, Chain(c, iv, s)) == s
    decreases |s|
  {
    if s != [] {
      var front, last := CutLast(s);
      UnchainChain(c, iv, front);
      UnchainChainStep(c, iv, front, last);
    }
  }

  lemma {:induction false} ChainUnchain(c: Cipher, iv: Bytes, s: Bytes)
    requires Invertible(c) && |iv| == BLOCK && WholeBlocks(s)
    ensures Chain(c, iv, Unchain(c, iv, s)) == s
    decreases |s|
  {
    if s != [] {
      var front, last := CutLast(s);
      ChainUnchain(c, iv, front);
      ChainUnchainStep(c, iv, front, last);
    }
  }

  /** The block before the j-th, the initial vector before the first. */
  function Before(iv: Bytes, s: Bytes, j: nat): (b: Bytes)
    requires |iv| == BLOCK && BLOCK * (j + 1) <= |s|
    ensures |b| == BLOCK
  {
    if j == 0 then iv else BlockAt(s, j - 1)
  }

  lemma BlockOfConcat(s: Bytes, b: Bytes, j: nat)
    requires WholeBlocks(s) && |b| == BLOCK && BLOCK * (j + 1) <= |s| + BLOCK
    ensures BLOCK * (j + 1) <= |s| ==> BlockAt(s + b, j) == BlockAt(s, j)
    ensures BLOCK * j == |s| ==> BlockAt(s + b, j) == b
    ensures BLOCK * (j + 1) <= |s| || BLOCK * j == |s|
  {
  }

  lemma BeforeLast(iv: Bytes, s: Bytes, b: Bytes, j: nat)
    requires |iv| == BLOCK && WholeBlocks(s) && |b| == BLOCK && BLOCK * j == |s|
    ensures Before(iv, s + b, j) == LastBlock(iv, s)
  {
  }

  /** The standard's equation for decryption: a block of text depends on two blocks of cipher
      text. */
  lemma {:induction false} UnchainBlock(c: Cipher, iv: Bytes, s: Bytes, j: nat)
    requires Sized(c) && |iv| == BLOCK && WholeBlocks(s) && BLOCK * (j + 1) <= |s|
    ensures BlockAt(Unchain(c, iv, s), j) == Xor(Dec(c, BlockAt(s, j)), Before(iv, s, j))
  {
    var front, last := s[..|s| - BLOCK], s[|s| - BLOCK..];
    assert s == front + last;
    UnchainStep(c, iv, front, last);
    BlockOfConcat(front, last, j);
    BlockOfConcat(Unchain(c, iv, front), Xor(Dec(c, last), LastBlock(iv, front)), j);
    if BLOCK * j == |front| {
      BeforeLast(iv, front, last, j);
    } else {
      UnchainBlock(c, iv, front, j);
      if j > 0 {
        BlockOfConcat(front, last, j - 1);
      }
    }
  }

  /** The standard's equation for encryption. */
  lemma {:induction false} ChainBlock(c: Cipher, iv: Bytes, s: Bytes, j: nat)
    requires Invertible(c) && |iv| == BLOCK && WholeBlocks(s) && BLOCK * (j + 1) <= |s|
    ensures var text := Chain(c, iv, s);
            BlockAt(text, j) == Enc(c, Xor(BlockAt(s, j), Before(iv, text, j)))
  {
    var text := Chain(c, iv, s);
    UnchainChain(c, iv, s);
    UnchainBlock(c, iv, text, j);
    XorTwice(Dec(c, BlockAt(text, j)), Before(iv, text, j));
    EncDec(c, BlockAt(text, j));
  }

  /** Damage to one block of cipher text reaches that block of the text and the next. */
  lemma {:induction false} DamageIsLocal(c: Cipher, iv: Bytes, s: Bytes, t: Bytes, damaged: nat, j: nat)
    requires Invertible(c) && |iv| == BLOCK && WholeBlocks(s) && |s| == |t| && BLOCK * (j + 1) <= |s|
    requires forall k: nat :: BLOCK * (k + 1) <= |s| && k != damaged ==> BlockAt(s, k) == BlockAt(t, k)
    requires j != damaged && j != damaged + 1
    ensures BlockAt(Unchain(c, iv, s), j) == BlockAt(Unchain(c, iv, t), j)
  {
    UnchainBlock(c, iv, s, j);
    UnchainBlock(c, iv, t, j);
    assert j > 0 ==> BlockAt(s, j - 1) == BlockAt(t, j - 1);
  }

  // ----- Encrypt and Decrypt

  datatype Model = Cbc | Ecb

  /** getKey: the longest of the three key lengths the key fills; None is a panic. */
  function KeyOf(key: Bytes): Option<Bytes> {
    if |key| < 16 then None
    else if |key| >= 32 then Some(key[..32])
    else if |key| >= 24 then Some(key[..24])
    else Some(key[..16])
  }

  /** The key used is the longest of the key lengths that the given one fills. */
  lemma {:induction false} KeyIsLongest(key: Bytes)
    ensures KeyOf(key) == None <==> |key| < 16
    ensures KeyOf(key).Some? ==> KeyOf(key).value <= key && |KeyOf(key).value| in {16, 24, 32}
    ensures forall k: Bytes :: k <= key && |k| in {16, 24, 32} ==> KeyOf(key).Some? && k <= KeyOf(key).value
  {
  }

  /** The initial vector: the key itself for cbc, where any length but a block's is a panic, and
      zeros for "ecb". */
  function VectorOf(model: Model, key: Bytes): (iv: Option<Bytes>)
    ensures iv.Some? ==> |iv.value| == BLOCK
  {
    if model.Ecb? then Some(Times(0, BLOCK))
    else if |key| == BLOCK then Some(key)
    else None
  }

  function Encrypted(c: Cipher, model: Model, key: Bytes, plain: Bytes): Option<Bytes>
    requires Sized(c)
  {
    var iv := VectorOf(model, key);
    if iv.None? then None else PadUnpad(plain); Some(Chain(c, iv.value, Pad(plain)))
  }

  function Decrypted(c: Cipher, model: Model, key: Bytes, text: Bytes): Option<Bytes>
    requires Sized(c)
  {
    var iv := VectorOf(model, key);
    if iv.None? || !WholeBlocks(text) then None else Unpad(Unchain(c, iv.value, text))
  }

  /** Whatever is encrypted decrypts to itself; nothing is encrypted exactly when a cbc key is
      not 16 bytes long. */
  lemma {:induction false} DecryptEncrypt(c: Cipher, model: Model, key: Bytes, plain: Bytes)
    requires Invertible(c)
    ensures var text := Encrypted(c, model, key, plain);
            && (text.None? <==> model.Cbc? && |key| != BLOCK)
            && (text.Some? ==> Decrypted(c, model, key, text.value) == Some(plain))
  {
    var iv := VectorOf(model, key);
    PadUnpad(plain);
    if iv.Some? {
      UnchainChain(c, iv.value, Pad(plain));
    }
  }

  /** Xor with zeros. */
  lemma XorZero(b: Bytes)
    ensures Xor(b, Times(0, |b|)) == b
  {
    forall i | 0 <= i < |b| ensures b[i] ^ 0 == b[i] {
      XorByteZero(b[i]);
    }
  }

  lemma XorByteZero(x: Byte)
    ensures x ^ 0 == x
  {
  }

  /** What the vector does to a block: cbc mixes it with the key, "ecb" leaves it. */
  lemma MixedByVector(model: Model, key: Bytes, b: Bytes)
    requires |b| == BLOCK && VectorOf(model, key).Some?
    ensures model.Cbc? ==> |key| == BLOCK && Xor(b, VectorOf(model, key).value) == Xor(b, key)
    ensures model.Ecb? ==> Xor(b, VectorOf(model, key).value) == b
  {
    XorZero(b);
  }

  /** The blocks of what is encrypted: the first is the block function of the first block of the
      padded text, mixed with the key in cbc and as it is in "ecb"; each later one is mixed with
      the block of cipher text before it. */
  lemma {:induction false} EncryptedBlocks(c: Cipher, model: Model, key: Bytes, plain: Bytes, j: nat)
    requires Invertible(c) && Encrypted(c, model, key, plain).Some? && BLOCK * (j + 1) <= |Pad(plain)|
    ensures var text := Encrypted(c, model, key, plain).value;
            && |text| == |Pad(plain)|
            && (j == 0 ==> model.Cbc? ==>
                  |key| == BLOCK && BlockAt(text, 0) == Enc(c, Xor(BlockAt(Pad(plain), 0), key)))
            && (j == 0 ==> model.Ecb? ==> BlockAt(text, 0) == Enc(c, BlockAt(Pad(plain), 0)))
            && (j > 0 ==> BlockAt(text, j) == Enc(c, Xor(BlockAt(Pad(plain), j), BlockAt(text, j - 1))))
  {
    PadUnpad(plain);
    ChainBlock(c, VectorOf(model, key).value, Pad(plain), j);
    MixedByVector(model, key, BlockAt(Pad(plain), 0));
  }

  lemma LaterBlocks(c: Cipher, iv: Bytes, text: Bytes)
    requires Sized(c) && |iv| == BLOCK && WholeBlocks(text)
    ensures forall j :: 0 < j && BLOCK * (j + 1) <= |text| ==>
              BlockAt(Unchain(c, iv, text), j) == Xor(Dec(c, BlockAt(text, j)), BlockAt(text, j - 1))
  {
    forall j | 0 < j && BLOCK * (j + 1) <= |text|
      ensures BlockAt(Unchain(c, iv, text), j) == Xor(Dec(c, BlockAt(text, j)), BlockAt(text, j - 1))
    {
      UnchainBlock(c, iv, text, j);
    }
  }

  lemma FirstBlock(c: Cipher, model: Model, key: Bytes, text: Bytes)
    requires Sized(c) && VectorOf(model, key).Some? && WholeBlocks(text) && text != []
    ensures var first := BlockAt(Unchain(c, VectorOf(model, key).value, text), 0);
            && (model.Cbc? ==> |key| == BLOCK && first == Xor(Dec(c, BlockAt(text, 0)), key))
            && (model.Ecb? ==> first == Dec(c, BlockAt(text, 0)))
  {
    UnchainBlock(c, VectorOf(model, key).value, text, 0);
    MixedByVector(model, key, Dec(c, BlockAt(text, 0)));
  }

  /** The blocks of what is decrypted, before the padding goes: the mirror of encryption. The last
      byte says how much goes, and nothing else of the padding is looked at. */
  lemma {:induction false} DecryptedBlocks(c: Cipher, model: Model, key: Bytes, text: Bytes)
      returns (padded: Bytes)
    requires Sized(c) && WholeBlocks(text) && text != [] && (model.Cbc? ==> |key| == BLOCK)
    ensures |padded| == |text|
    ensures model.Cbc? ==> BlockAt(padded, 0) == Xor(Dec(c, BlockAt(text, 0)), key)
    ensures model.Ecb? ==> BlockAt(padded, 0) == Dec(c, BlockAt(text, 0))
    ensures forall j :: 0 < j && BLOCK * (j + 1) <= |text| ==>
              BlockAt(padded, j) == Xor(Dec(c, BlockAt(text, j)), BlockAt(text, j - 1))
    ensures var cut := padded[|padded| - 1] as int;
            Decrypted(c, model, key, text) == if cut > |padded| then None else Some(padded[..|padded| - cut])
  {
    padded := Unchain(c, VectorOf(model, key).value, text);
    FirstBlock(c, model, key, text);
    LaterBlocks(c, VectorOf(model, key).value, text);
  }

  /** What is not decrypted: a text of no or of broken blocks, and any by a cbc key that is not of
      16 bytes. */
  lemma NotDecrypted(c: Cipher, model: Model, key: Bytes, text: Bytes)
    requires Sized(c)
    ensures !WholeBlocks(text) || text == [] || (model.Cbc? && |key| != BLOCK) ==>
              Decrypted(c, model, key, text) == None
  {
  }

  lemma SameVector(key: Bytes)
    requires |key| == BLOCK
    ensures key == Times(0, BLOCK) ==> VectorOf(Cbc, key) == VectorOf(Ecb, key)
  {
  }

  /** Under one key of 16 bytes the two models encrypt a text alike if and only if the key is all
      zeros. */
  lemma {:induction false} ModelsAgreeExactly(c: Cipher, key: Bytes, plain: Bytes)
    requires Invertible(c) && |key| == BLOCK
    ensures Encrypted(c, Cbc, key, plain) == Encrypted(c, Ecb, key, plain) <==> key == Times(0, BLOCK)
  {
    PadUnpad(plain);
    SameVector(key);
    if Encrypted(c, Cbc, key, plain) == Encrypted(c, Ecb, key, plain) {
      var b := BlockAt(Pad(plain), 0);
      EncryptedBlocks(c, Cbc, key, plain, 0);
      EncryptedBlocks(c, Ecb, key, plain, 0);
      EncDec(c, Xor(b, key));
      EncDec(c, b);
      XorLeaves(b, key);
    }
  }

  lemma XorLeaves(b: Bytes, key: Bytes)
    requires |b| == |key| && Xor(b, key) == b
    ensures key == Times(0, |key|)
  {
    forall i | 0 <= i < |key| ensures key[i] == 0 {
      assert b[i] ^ key[i] == b[i];
      XorSame(b[i], key[i]);
    }
  }

  lemma XorSame(x: Byte, y: Byte)
    requires x ^ y == x
    ensures y == 0
  {
    assert (x ^ y) ^ x == y;
    assert x ^ x == 0;
  }

  /** What decrypts is the encryption of its text if and only if that text came well padded. */
  lemma {:induction false} EncryptDecrypt(c: Cipher, model: Model, key: Bytes, text: Bytes)
    requires Invertible(c) && Decrypted(c, model, key, text).Some?
    ensures Encrypted(c, model, key, Decrypted(c, model, key, text).value) == Some(text)
            <==> WellPadded(Unchain(c, VectorOf(model, key).value, text))
  {
    var iv := VectorOf(model, key).value;
    var padded := Unchain(c, iv, text);
    var plain := Unpad(padded).value;
    UnpadPad(padded);
    ChainUnchain(c, iv, text);
    PadUnpad(plain);
    UnchainChain(c, iv, Pad(plain));
  }

  /** Decrypting in the other model spoils no block but the first. */
  lemma {:induction false} OtherModel(c: Cipher, iv: Bytes, other: Bytes, s: Bytes, j: nat)
    requires Invertible(c) && |iv| == BLOCK == |other| && WholeBlocks(s) && BLOCK * (j + 1) <= |s| && j > 0
    ensures BlockAt(Unchain(c, other, Chain(c, iv, s)), j) == BlockAt(s, j)
  {
    UnchainChain(c, iv, s);
    UnchainBlock(c, iv, Chain(c, iv, s), j);
    UnchainBlock(c, other, Chain(c, iv, s), j);
  }

  method CopyInto(dst: array<Byte>, at: nat, src: Bytes)
    requires at + |src| <= dst.Length
    modifies dst
    ensures dst[..at + |src|] == old(dst[..at]) + src
  {
    forall k | 0 <= k < |src| {
      dst[at + k] := src[k];
    }
  }

  lemma LastAppended(iv: Bytes, s: Bytes, b: Bytes)
    requires |iv| == BLOCK && WholeBlocks(s) && |b| == BLOCK
    ensures WholeBlocks(s + b) && LastBlock(iv, s + b) == b
  {
  }

  lemma NextChained(c: Cipher, iv: Bytes, src: Bytes, i: nat)
    requires Sized(c) && |iv| == BLOCK && i + BLOCK <= |src| && WholeBlocks(src[..i])
    ensures WholeBlocks(src[..i + BLOCK])
    ensures var done := Chain(c, iv, src[..i]);
            var e := Enc(c, Xor(src[i..i + BLOCK], LastBlock(iv, done)));
            Chain(c, iv, src[..i + BLOCK]) == done + e && LastBlock(iv, done + e) == e
  {
    var front, next := src[..i], src[i..i + BLOCK];
    ChainStep(c, iv, front, next);
    LastAppended(iv, Chain(c, iv, front), Enc(c, Xor(next, LastBlock(iv, Chain(c, iv, front)))));
    assert src[..i + BLOCK] == front + next;
  }

  lemma NextUnchained(c: Cipher, iv: Bytes, src: Bytes, i: nat)
    requires Sized(c) && |iv| == BLOCK && i + BLOCK <= |src| && WholeBlocks(src[..i])
    ensures WholeBlocks(src[..i + BLOCK])
    ensures Unchain(c, iv, src[..i + BLOCK])
            == Unchain(c, iv, src[..i]) + Xor(Dec(c, src[i..i + BLOCK]), LastBlock(iv, src[..i]))
    ensures LastBlock(iv, src[..i + BLOCK]) == src[i..i + BLOCK]
  {
    var front, next := src[..i], src[i..i + BLOCK];
    UnchainStep(c, iv, front, next);
    LastAppended(iv, front, next);
    assert src[..i + BLOCK] == front + next;
  }

  /** One block chained into its place; it is mixed into the next. */
  method EncryptBlock(c: Cipher, iv: Bytes, dst: array<Byte>, src: Bytes, i: nat, prev: Bytes) returns (next: Bytes)
    requires Sized(c) && |iv| == BLOCK && dst.Length == |src| && i + BLOCK <= |src| && WholeBlocks(src[..i])
    requires dst[..i] == Chain(c, iv, src[..i]) && prev == LastBlock(iv, Chain(c, iv, src[..i]))
    modifies dst
    ensures WholeBlocks(src[..i + BLOCK]) && dst[..i + BLOCK] == Chain(c, iv, src[..i + BLOCK])
    ensures next == LastBlock(iv, Chain(c, iv, src[..i + BLOCK]))
  {
    NextChained(c, iv, src, i);
    next := Enc(c, Xor(src[i..i + BLOCK], prev));
    CopyInto(dst, i, next);
  }

  /** One block unchained into its place. */
  method DecryptBlock(c: Cipher, iv: Bytes, dst: array<Byte>, src: Bytes, i: nat, prev: Bytes) returns (next: Bytes)
    requires Sized(c) && |iv| == BLOCK && dst.Length == |src| && i + BLOCK <= |src| && WholeBlocks(src[..i])
    requires dst[..i] == Unchain(c, iv, src[..i]) && prev == LastBlock(iv, src[..i])
    modifies dst
    ensures WholeBlocks(src[..i + BLOCK]) && dst[..i + BLOCK] == Unchain(c, iv, src[..i + BLOCK])
    ensures next == LastBlock(iv, src[..i + BLOCK])
  {
    NextUnchained(c, iv, src, i);
    next := src[i..i + BLOCK];
    CopyInto(dst, i, Xor(Dec(c, next), prev));
  }

  /** The chaining encrypter: fills dst with src chained, a block at a time. */
  method EncryptBlocks(c: Cipher, iv: Bytes, dst: array<Byte>, src: Bytes)
    requires Sized(c) && |iv| == BLOCK && WholeBlocks(src) && dst.Length == |src|
    modifies dst
    ensures dst[..] == Chain(c, iv, src)
  {
    var i, prev := 0, iv;
    while i < |src|
      invariant i <= |src| && WholeBlocks(src[..i])
      invariant dst[..i] == Chain(c, iv, src[..i]) && prev == LastBlock(iv, Chain(c, iv, src[..i]))
    {
      prev := EncryptBlock(c, iv, dst, src, i, prev);
      i := i + BLOCK;
    }
    assert src[..i] == src && dst[..i] == dst[..];
  }

  /** The chaining decrypter: fills dst with src unchained, a block at a time. */
  method DecryptBlocks(c: Cipher, iv: Bytes, dst: array<Byte>, src: Bytes)
    requires Sized(c) && |iv| == BLOCK && WholeBlocks(src) && dst.Length == |src|
    modifies dst
    ensures dst[..] == Unchain(c, iv, src)
  {
    var i, prev := 0, iv;
    while i < |src|
      invariant i <= |src| && WholeBlocks(src[..i])
      invariant dst[..i] == Unchain(c, iv, src[..i]) && prev == LastBlock(iv, src[..i])
    {
      prev := DecryptBlock(c, iv, dst, src, i, prev);
      i := i + BLOCK;
    }
    assert src[..i] == src && dst[..i] == dst[..];
  }

  class AesCrypt {
    const key: Bytes
    const block: Cipher
    var model: Model

    ghost predicate Valid() {
      |key| in {16, 24, 32} && Invertible(block)
    }

    /** The two functions stand for the block cipher the key selects. */
    constructor (key: Bytes, newCipher: Bytes -> Cipher)
      requires KeyOf(key).Some? && Invertible(newCipher(KeyOf(key).value))
      ensures Valid() && Some(this.key) == KeyOf(key) && block == newCipher(this.key) && model == Cbc
    {
      this.key, block, model := KeyOf(key).value, newCipher(KeyOf(key).value), Cbc;
    }

    method SetEcbModel()
      modifies this
      ensures model == Ecb
    {
      model := Ecb;
    }

    method Encrypt(plainText: Bytes) returns (r: Option<Bytes>)
      requires Valid()
      ensures r == Encrypted(block, model, key, plainText)
    {
      PadUnpad(plainText);
      var padded := Pad(plainText);
      var iv := VectorOf(model, key);
      if iv.None? {
        return None;
      }
      var cipherText := new Byte[|padded|];
      EncryptBlocks(block, iv.value, cipherText, padded);
      return Some(cipherText[..]);
    }

    method Decrypt(cipherText: Bytes) returns (r: Option<Bytes>)
      requires Valid()
      ensures r == Decrypted(block, model, key, cipherText)
    {
      var iv := VectorOf(model, key);
      if iv.None? || |cipherText| % BLOCK != 0 {
        return None;
      }
      var plainText := new Byte[|cipherText|];
      DecryptBlocks(block, iv.value, plainText, cipherText);
      return Unpad(plainText[..]);
    }
  }
}
