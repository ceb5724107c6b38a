/** drivers/139/util.go and drivers/189/help.go: padding, block modes and the framing with the initialization
    vector. The block cipher itself is abstract; only its invertibility is used. */
module BlockCipher {
  import opened Results
  import opened Pieces
  import opened Streams

  const BLOCK_SIZE: nat := 16

  type Block = b: seq<byte> | |b| == BLOCK_SIZE witness [0, 0, 0, 0, 0, 0, 0, 0, 0, 0, 0, 0, 0, 0, 0, 0]

  datatype Aes = Aes(encrypt: (seq<byte>, Block) -> Block, decrypt: (seq<byte>, Block) -> Block)

  function Enc(aes: Aes, key: seq<byte>, b: Block): Block { aes.encrypt(key, b) }

  function Dec(aes: Aes, key: seq<byte>, b: Block): Block { aes.decrypt(key, b) }

  ghost predicate Invertible(aes: Aes) {
    forall key: seq<byte>, b: Block :: Dec(aes, key, Enc(aes, key, b)) == b
  }

  /** aes.NewCipher accepts keys for AES-128, AES-192 and AES-256. */
  predicate KeyOk(key: seq<byte>) {
    |key| == 16 || |key| == 24 || |key| == 32
  }

  // ---------- Padding ----------

  /** The low eight bits, as Go's conversion to byte keeps them. */
  function LowByte(n: nat): byte { (n % 256) as bv8 }

  function Pad(data: seq<byte>, blockSize: nat): (padded: seq<byte>)
    requires blockSize > 0
  {
    var padding := blockSize - |data| % blockSize;
    data + seq(padding, _ => LowByte(padding))
  }

  function Unpad(data: seq<byte>): Failable<seq<byte>> {
    var length := |data|;
    if length == 0 then Err(())
    else
      var unpadding := data[length - 1] as int;
      if unpadding > length then Err(()) else Ok(data[..length - unpadding])
  }

  /** The padded length is the next multiple of the block size, even for data of such a length already. */
  lemma PadLength(data: seq<byte>, blockSize: nat)
    requires blockSize > 0
    ensures |Pad(data, blockSize)| % blockSize == 0
    ensures |data| < |Pad(data, blockSize)| <= |data| + blockSize
  {
    PadArithmetic(|data|, blockSize);
  }

  lemma PadArithmetic(length: nat, n: nat)
    requires n > 0
    ensures (length + (n - length % n)) % n == 0 && 1 <= n - length % n <= n
  {
    var q, r := length / n, length % n;
    assert length == q * n + r && (q + 1) * n == q * n + n;
    QuotientIs(length + (n - r), n, q + 1, 0);
  }

  lemma LowByteIs(n: nat)
    ensures LowByte(n) as int == n % 256
  {
    ByteIs(n % 256);
  }

  lemma {:induction false} ByteIs(m: nat)
    requires m < 256
    ensures m as bv8 as int == m
  {
    if m > 0 {
      ByteIs(m - 1);
      NextByte((m - 1) as bv8);
      SameByte(m, (m - 1) as bv8 + 1);
    }
  }

  lemma NextByte(b: byte)
    requires b as int < 255
    ensures (b + 1) as int == b as int + 1
  {
  }

  lemma SameByte(m: nat, b: byte)
    requires m < 256 && b as int == m
    ensures b == m as bv8
  {
  }

  /** Unpadding undoes padding exactly if the padding length fits in a byte; so always for block sizes below 256. */
  lemma UnpadUndoesPad(data: seq<byte>, blockSize: nat)
    requires blockSize > 0
    ensures Unpad(Pad(data, blockSize)) == Ok(data) <==> blockSize - |data| % blockSize < 256
  {
    var padding := blockSize - |data| % blockSize;
    var padded := Pad(data, blockSize);
    LowByteIs(padding);
    assert padded[|padded| - 1] == LowByte(padding);
    var unpadding := padding % 256;
    assert unpadding <= |padded|;
    assert Unpad(padded) == Ok(padded[..|padded| - unpadding]);
    assert padded[..|data|] == data;
  }

  /** Section 6.3 of RFC 5652: the data, followed by up to `n` bytes that each hold the number of these bytes. */
  ghost predicate IsPkcs7(text: seq<byte>, data: seq<byte>, n: nat)
    requires n > 0
  {
    && data <= text && |text| % n == 0 && 0 < |text| - |data| <= n
    && forall i :: |data| <= i < |text| ==> text[i] as int == |text| - |data|
  }

  lemma PadIsWritten(data: seq<byte>, n: nat)
    requires 0 < n < 256
    ensures IsPkcs7(Pad(data, n), data, n)
  {
    var padded := Pad(data, n);
    var padding := n - |data| % n;
    assert padded == data + seq(padding, _ => LowByte(padding));
    PadLength(data, n);
    LowByteIs(padding);
    hide LowByte, Pad;
    assert padding % 256 == padding && |padded| - |data| == padding;
    assert forall i :: |data| <= i < |padded| ==> padded[i] == LowByte(padding);
  }

  /** For block sizes below 256 padding is exactly PKCS7, and `Unpad` reads what any PKCS7 writer wrote. */
  lemma PadIsPkcs7(data: seq<byte>, n: nat, text: seq<byte>)
    requires 0 < n < 256
    ensures IsPkcs7(text, data, n) <==> text == Pad(data, n)
    ensures IsPkcs7(text, data, n) ==> Unpad(text) == Ok(data)
  {
    PadIsWritten(data, n);
    if IsPkcs7(text, data, n) {
      OnePkcs7(text, Pad(data, n), data, n);
      assert text[..|data|] == data;
    }
  }

  lemma OnePkcs7(a: seq<byte>, b: seq<byte>, data: seq<byte>, n: nat)
    requires 0 < n < 256 && IsPkcs7(a, data, n) && IsPkcs7(b, data, n)
    ensures a == b
  {
    SameMultiple(|data|, |a|, |b|, n);
    forall i | 0 <= i < |a| ensures a[i] == b[i] {
      if i < |data| {
        assert a[i] == data[i] == b[i];
      } else {
        SameByte(|a| - |data|, a[i]);
        SameByte(|a| - |data|, b[i]);
      }
    }
  }

  /** Only one multiple of `n` lies within `n` behind a length. */
  lemma SameMultiple(length: nat, a: nat, b: nat, n: nat)
    requires n > 0 && a % n == b % n == 0 && length < a <= length + n && length < b <= length + n
    ensures a == b
  {
    var q, r := a / n, b / n;
    assert a == q * n && b == r * n;
    if q < r {
      NextMultiple(q, r, n);
    } else if r < q {
      NextMultiple(r, q, n);
    }
  }

  lemma NextMultiple(q: nat, r: nat, n: nat)
    requires q < r
    ensures q * n + n <= r * n
  {
    var d := r - q - 1;
    assert r * n == (q + 1 + d) * n == q * n + n + d * n;
    assert d * n >= 0;
  }

  /** All that `Unpad` looks at is the last byte. */
  lemma UnpadReadsTheLastByte(text: seq<byte>)
    ensures Unpad(text).Ok? <==> text != [] && text[|text| - 1] as int <= |text|
    ensures var r := Unpad(text);
      r.Ok? ==> r.value <= text && |text| - |r.value| == text[|text| - 1] as int
  {
  }

  // ---------- ECB ----------

  predicate Whole(s: seq<byte>) { |s| % BLOCK_SIZE == 0 }

  ghost function EcbEncrypt(aes: Aes, key: seq<byte>, s: seq<byte>): (c: seq<byte>)
    requires Whole(s)
    ensures |c| == |s|
  {
    if s == [] then [] else Enc(aes, key, s[..BLOCK_SIZE]) + EcbEncrypt(aes, key, s[BLOCK_SIZE..])
  }

  ghost function EcbDecrypt(aes: Aes, key: seq<byte>, s: seq<byte>): (p: seq<byte>)
    requires Whole(s)
    ensures |p| == |s|
  {
    if s == [] then [] else Dec(aes, key, s[..BLOCK_SIZE]) + EcbDecrypt(aes, key, s[BLOCK_SIZE..])
  }

  lemma EcbNext(aes: Aes, key: seq<byte>, s: seq<byte>, bs: nat)
    requires bs + BLOCK_SIZE <= |s|
    requires Whole(s[bs..]) && Whole(s[bs + BLOCK_SIZE..])
    ensures EcbEncrypt(aes, key, s[bs..]) ==
      Enc(aes, key, s[bs..bs + BLOCK_SIZE]) + EcbEncrypt(aes, key, s[bs + BLOCK_SIZE..])
    ensures EcbDecrypt(aes, key, s[bs..]) ==
      Dec(aes, key, s[bs..bs + BLOCK_SIZE]) + EcbDecrypt(aes, key, s[bs + BLOCK_SIZE..])
  {
    assert s[bs..][..BLOCK_SIZE] == s[bs..bs + BLOCK_SIZE] && s[bs..][BLOCK_SIZE..] == s[bs + BLOCK_SIZE..];
  }

  lemma {:induction false} EcbRoundTrip(aes: Aes, key: seq<byte>, s: seq<byte>)
    requires Invertible(aes) && Whole(s)
    ensures EcbDecrypt(aes, key, EcbEncrypt(aes, key, s)) == s
  {
    if s != [] {
      EcbRoundTrip(aes, key, s[BLOCK_SIZE..]);
      var x := Enc(aes, key, s[..BLOCK_SIZE]);
      var c := EcbEncrypt(aes, key, s);
      assert c[..BLOCK_SIZE] == x && c[BLOCK_SIZE..] == EcbEncrypt(aes, key, s[BLOCK_SIZE..]);
      assert s == s[..BLOCK_SIZE] + s[BLOCK_SIZE..];
    }
  }

  function BlockAt(s: seq<byte>, k: nat): Block
    requires BLOCK_SIZE * k + BLOCK_SIZE <= |s|
  {
    s[BLOCK_SIZE * k..BLOCK_SIZE * k + BLOCK_SIZE]
  }

  lemma BlockBehind(x: Block, rest: seq<byte>, k: nat)
    requires BLOCK_SIZE * k + BLOCK_SIZE <= |x + rest|
    ensures BlockAt(x + rest, k) == if k == 0 then x else BlockAt(rest, k - 1)
  {
  }

  /** Every block is encrypted and decrypted on its own. */
  lemma {:induction false} EcbBlock(aes: Aes, key: seq<byte>, s: seq<byte>, k: nat)
    requires Whole(s) && BLOCK_SIZE * k + BLOCK_SIZE <= |s|
    ensures BlockAt(EcbEncrypt(aes, key, s), k) == aes.encrypt(key, BlockAt(s, k))
    ensures BlockAt(EcbDecrypt(aes, key, s), k) == aes.decrypt(key, BlockAt(s, k))
    decreases k
  {
    var b, rest := s[..BLOCK_SIZE], s[BLOCK_SIZE..];
    assert s == b + rest;
    BlockBehind(b, rest, k);
    BlockBehind(Enc(aes, key, b), EcbEncrypt(aes, key, rest), k);
    BlockBehind(Dec(aes, key, b), EcbDecrypt(aes, key, rest), k);
    if k > 0 {
      EcbBlock(aes, key, rest, k - 1);
    }
  }

  /** The destination once the blocks before `bs` are filled. */
  ghost predicate Filled(out: seq<byte>, bs: nat, rest: seq<byte>, all: seq<byte>) {
    bs <= |out| == |all| && bs + |rest| == |all| && out[..bs] + rest == all
  }

  lemma FillBlock(out: seq<byte>, out': seq<byte>, bs: nat, x: Block, rest: seq<byte>, all: seq<byte>)
    requires Filled(out, bs, x + rest, all)
    requires |out'| == |out| && out'[..bs] == out[..bs] && out'[bs..bs + BLOCK_SIZE] == x
    ensures Filled(out', bs + BLOCK_SIZE, rest, all)
  {
    assert out'[..bs + BLOCK_SIZE] == out[..bs] + x;
    assert out[..bs] + (x + rest) == out[..bs] + x + rest;
  }

  method CopyBlock(a: array<byte>, bs: nat, x: Block)
    requires bs + BLOCK_SIZE <= a.Length
    modifies a
    ensures a[..bs] == old(a[..bs]) && a[bs..bs + BLOCK_SIZE] == x
  {
    for k := 0 to BLOCK_SIZE
      invariant a[..bs] == old(a[..bs]) && a[bs..bs + k] == x[..k]
    {
      a[bs + k] := x[k];
    }
    assert x[..BLOCK_SIZE] == x;
  }

  lemma NextBlock(s: seq<byte>, bs: nat)
    requires Whole(s) && bs <= |s| && bs % BLOCK_SIZE == 0
    ensures Whole(s[bs..])
    ensures bs < |s| ==> bs + BLOCK_SIZE <= |s|
    ensures bs < |s| ==>
      s[bs..][..BLOCK_SIZE] == s[bs..bs + BLOCK_SIZE] && s[bs..][BLOCK_SIZE..] == s[bs + BLOCK_SIZE..]
  {
  }

  /** AesEncrypt of drivers/189/help.go; a key of the wrong length yields nothing. */
  method AesEncrypt(aes: Aes, plaintext: seq<byte>, key: seq<byte>) returns (c: seq<byte>)
    ensures !KeyOk(key) ==> c == []
    ensures KeyOk(key) ==> Whole(Pad(plaintext, BLOCK_SIZE)) && c == EcbEncrypt(aes, key, Pad(plaintext, BLOCK_SIZE))
    ensures c != [] <==> |key| in {16, 24, 32}
    ensures c != [] ==> Whole(c) && (Invertible(aes) ==> IsPkcs7(EcbDecrypt(aes, key, c), plaintext, BLOCK_SIZE))
  {
    if !KeyOk(key) {
      return [];
    }
    var padded := Pad(plaintext, BLOCK_SIZE);
    PadLength(plaintext, BLOCK_SIZE);
    PadIsPkcs7(plaintext, BLOCK_SIZE, padded);
    c := EncryptBlocks(aes, padded, key);
    if Invertible(aes) {
      EcbRoundTrip(aes, key, padded);
    }
  }

  method EncryptBlocks(aes: Aes, data: seq<byte>, key: seq<byte>) returns (c: seq<byte>)
    requires Whole(data)
    ensures c == EcbEncrypt(aes, key, data)
  {
    var encrypted := new byte[|data|];
    var bs := 0;
    ghost var all := EcbEncrypt(aes, key, data);
    assert data[0..] == data && Filled(encrypted[..], 0, all, all);
    hide Filled, Enc, EcbEncrypt;
    while bs < |data|
      invariant 0 <= bs <= |data| && bs % BLOCK_SIZE == 0 && Whole(data[bs..])
      invariant Filled(encrypted[..], bs, EcbEncrypt(aes, key, data[bs..]), all)
    {
      NextBlock(data, bs);
      NextBlock(data, bs + BLOCK_SIZE);
      EcbNext(aes, key, data, bs);
      var x := Enc(aes, key, data[bs..bs + BLOCK_SIZE]);
      ghost var out := encrypted[..];
      CopyBlock(encrypted, bs, x);
      FillBlock(out, encrypted[..], bs, x, EcbEncrypt(aes, key, data[bs + BLOCK_SIZE..]), all);
      bs := bs + BLOCK_SIZE;
    }
    assert data[bs..] == [];
    AllFilled(encrypted[..], all);
    return encrypted[..];
  }

  lemma AllFilled(out: seq<byte>, all: seq<byte>)
    requires Filled(out, |out|, [], all)
    ensures out == all
  {
    assert out[..|out|] + [] == out;
  }

  /** aes_ecb_decrypt of drivers/139/util.go. */
  method AesEcbDecrypt(aes: Aes, ciphertext: seq<byte>, key: seq<byte>) returns (r: Failable<seq<byte>>)
    ensures !KeyOk(key) || !Whole(ciphertext) ==> r.Err?
    ensures KeyOk(key) && Whole(ciphertext) ==> r == Unpad(EcbDecrypt(aes, key, ciphertext))
  {
    if !KeyOk(key) {
      return Err(());
    }
    if |ciphertext| % BLOCK_SIZE != 0 {
      return Err(());
    }
    var decrypted := new byte[|ciphertext|];
    var bs := 0;
    ghost var all := EcbDecrypt(aes, key, ciphertext);
    assert ciphertext[0..] == ciphertext && Filled(decrypted[..], 0, all, all);
    hide Filled, Unpad, Dec, EcbDecrypt;
    while bs < |ciphertext|
      invariant 0 <= bs <= |ciphertext| && bs % BLOCK_SIZE == 0 && Whole(ciphertext[bs..])
      invariant Filled(decrypted[..], bs, EcbDecrypt(aes, key, ciphertext[bs..]), all)
    {
      NextBlock(ciphertext, bs);
      NextBlock(ciphertext, bs + BLOCK_SIZE);
      EcbNext(aes, key, ciphertext, bs);
      var x := Dec(aes, key, ciphertext[bs..bs + BLOCK_SIZE]);
      ghost var out := decrypted[..];
      CopyBlock(decrypted, bs, x);
      FillBlock(out, decrypted[..], bs, x, EcbDecrypt(aes, key, ciphertext[bs + BLOCK_SIZE..]), all);
      bs := bs + BLOCK_SIZE;
    }
    assert ciphertext[bs..] == [];
    AllFilled(decrypted[..], all);
    return Unpad(decrypted[..]);
  }

  /** What the 139 driver makes of a text that the 189 driver's routine encrypted: the text. */
  lemma EcbUndone(aes: Aes, plaintext: seq<byte>, key: seq<byte>)
    requires Invertible(aes)
    ensures var padded := Pad(plaintext, BLOCK_SIZE);
      Whole(padded) && Unpad(EcbDecrypt(aes, key, EcbEncrypt(aes, key, padded))) == Ok(plaintext)
  {
    PadLength(plaintext, BLOCK_SIZE);
    EcbRoundTrip(aes, key, Pad(plaintext, BLOCK_SIZE));
    UnpadUndoesPad(plaintext, BLOCK_SIZE);
  }

  // ---------- CBC ----------

  function Xor(a: Block, b: Block): Block {
    seq(BLOCK_SIZE, i requires 0 <= i < BLOCK_SIZE => a[i] ^ b[i])
  }

  lemma XorByte(a: byte, b: byte)
    ensures (a ^ b) ^ b == a
  {
  }

  lemma XorTwice(a: Block, b: Block)
    ensures Xor(Xor(a, b), b) == a
  {
    forall i | 0 <= i < BLOCK_SIZE ensures Xor(Xor(a, b), b)[i] == a[i] {
      XorByte(a[i], b[i]);
    }
  }

  function CbcEncrypt(aes: Aes, key: seq<byte>, iv: Block, s: seq<byte>): (c: seq<byte>)
    requires Whole(s)
    ensures |c| == |s|
    decreases |s|
  {
    if s == [] then []
    else
      var x := Enc(aes, key, Xor(s[..BLOCK_SIZE], iv));
      x + CbcEncrypt(aes, key, x, s[BLOCK_SIZE..])
  }

  function CbcDecrypt(aes: Aes, key: seq<byte>, iv: Block, s: seq<byte>): (p: seq<byte>)
    requires Whole(s)
    ensures |p| == |s|
    decreases |s|
  {
    if s == [] then []
    else Xor(Dec(aes, key, s[..BLOCK_SIZE]), iv) + CbcDecrypt(aes, key, s[..BLOCK_SIZE], s[BLOCK_SIZE..])
  }

  lemma {:induction false} CbcRoundTrip(aes: Aes, key: seq<byte>, iv: Block, s: seq<byte>)
    requires Invertible(aes) && Whole(s)
    ensures CbcDecrypt(aes, key, iv, CbcEncrypt(aes, key, iv, s)) == s
    decreases |s|
  {
    if s != [] {
      var b, rest := s[..BLOCK_SIZE], s[BLOCK_SIZE..];
      var x := Enc(aes, key, Xor(b, iv));
      var c := CbcEncrypt(aes, key, iv, s);
      assert c[..BLOCK_SIZE] == x && c[BLOCK_SIZE..] == CbcEncrypt(aes, key, x, rest);
      CbcRoundTrip(aes, key, x, rest);
      XorTwice(b, iv);
      assert Dec(aes, key, x) == Xor(b, iv);
      assert s == b + rest;
    }
  }

  /** What a block is mixed with: the ciphertext block before it, or the vector. */
  function Before(iv: Block, c: seq<byte>, k: nat): Block
    requires BLOCK_SIZE * k <= |c|
  {
    if k == 0 then iv else BlockAt(c, k - 1)
  }

  lemma BeforeNext(iv: Block, x: Block, rest: seq<byte>, k: nat)
    requires 0 < k && BLOCK_SIZE * k + BLOCK_SIZE <= |x + rest|
    ensures Before(iv, x + rest, k) == Before(x, rest, k - 1) && BlockAt(x + rest, k) == BlockAt(rest, k - 1)
  {
  }

  /** Byte by byte, `x` is the exclusive or of the two blocks. */
  ghost predicate IsXor(x: Block, a: Block, b: Block) {
    forall i :: 0 <= i < BLOCK_SIZE ==> x[i] == a[i] ^ b[i]
  }

  lemma CbcNext(aes: Aes, key: seq<byte>, iv: Block, s: seq<byte>)
    requires Whole(s) && s != []
    ensures var b, rest := s[..BLOCK_SIZE], s[BLOCK_SIZE..];
      && s == b + rest && Whole(rest)
      && CbcEncrypt(aes, key, iv, s) ==
        Enc(aes, key, Xor(b, iv)) + CbcEncrypt(aes, key, Enc(aes, key, Xor(b, iv)), rest)
      && CbcDecrypt(aes, key, iv, s) == Xor(Dec(aes, key, b), iv) + CbcDecrypt(aes, key, b, rest)
  {
  }

  /** A block is the encryption of the exclusive or of its plaintext with the ciphertext block before it. */
  lemma {:induction false} CbcBlock(aes: Aes, key: seq<byte>, iv: Block, s: seq<byte>, c: seq<byte>, k: nat, x: Block)
    requires Whole(s) && BLOCK_SIZE * k + BLOCK_SIZE <= |s| && c == CbcEncrypt(aes, key, iv, s)
    requires IsXor(x, BlockAt(s, k), Before(iv, c, k))
    ensures BlockAt(c, k) == aes.encrypt(key, x)
    decreases k
  {
    CbcNext(aes, key, iv, s);
    hide CbcEncrypt, CbcDecrypt;
    var b, rest := s[..BLOCK_SIZE], s[BLOCK_SIZE..];
    if k == 0 {
      assert x == Xor(b, iv);
    } else {
      var first := Enc(aes, key, Xor(b, iv));
      hide Xor, Enc, IsXor;
      var rest' := CbcEncrypt(aes, key, first, rest);
      BeforeNext(iv, first, rest', k);
      BeforeNext(iv, b, rest, k);
      hide BlockAt, Before;
      CbcBlock(aes, key, first, rest, rest', k - 1, x);
    }
  }

  /** And a decrypted block is mixed with that ciphertext block again. */
  lemma {:induction false} CbcBlockBack(aes: Aes, key: seq<byte>, iv: Block, s: seq<byte>, p: seq<byte>, k: nat)
    requires Whole(s) && BLOCK_SIZE * k + BLOCK_SIZE <= |s| && p == CbcDecrypt(aes, key, iv, s)
    ensures IsXor(BlockAt(p, k), aes.decrypt(key, BlockAt(s, k)), Before(iv, s, k))
    decreases k
  {
    CbcNext(aes, key, iv, s);
    hide CbcEncrypt, CbcDecrypt;
    var b, rest := s[..BLOCK_SIZE], s[BLOCK_SIZE..];
    if k > 0 {
      var first := Xor(Dec(aes, key, b), iv);
      hide Xor, Dec, IsXor;
      var rest' := CbcDecrypt(aes, key, b, rest);
      BeforeNext(iv, first, rest', k);
      BeforeNext(iv, b, rest, k);
      hide BlockAt, Before;
      CbcBlockBack(aes, key, b, rest, rest', k - 1);
    }
  }

  function AesCbcEncrypt(aes: Aes, plaintext: seq<byte>, key: seq<byte>, iv: seq<byte>): Failable<seq<byte>> {
    if !KeyOk(key) then Err(())
    else if |iv| != BLOCK_SIZE then Err(())
    else
      var padded := Pad(plaintext, BLOCK_SIZE);
      PadLength(plaintext, BLOCK_SIZE);
      Ok(CbcEncrypt(aes, key, iv, padded))
  }

  function AesCbcDecrypt(aes: Aes, ciphertext: seq<byte>, key: seq<byte>, iv: seq<byte>): Failable<seq<byte>> {
    if !KeyOk(key) then Err(())
    else if |iv| != BLOCK_SIZE then Err(())
    else if |ciphertext| % BLOCK_SIZE != 0 then Err(())
    else Unpad(CbcDecrypt(aes, key, iv, ciphertext))
  }

  /** Decryption undoes encryption for every plaintext; encryption fails only on a bad key or vector, and the
      ciphertext is a positive number of blocks. */
  lemma CbcUndone(aes: Aes, plaintext: seq<byte>, key: seq<byte>, iv: seq<byte>)
    requires Invertible(aes)
    ensures var r := AesCbcEncrypt(aes, plaintext, key, iv);
      && (r.Ok? <==> KeyOk(key) && |iv| == BLOCK_SIZE)
      && (r.Ok? ==> |r.value| > |plaintext| && Whole(r.value) && AesCbcDecrypt(aes, r.value, key, iv) == Ok(plaintext))
      && (r.Ok? ==> IsPkcs7(CbcDecrypt(aes, key, iv, r.value), plaintext, BLOCK_SIZE))
  {
    var padded := Pad(plaintext, BLOCK_SIZE);
    PadIsWritten(plaintext, BLOCK_SIZE);
    PadLength(plaintext, BLOCK_SIZE);
    UnpadUndoesPad(plaintext, BLOCK_SIZE);
    if KeyOk(key) && |iv| == BLOCK_SIZE {
      CbcRoundTrip(aes, key, iv, padded);
    }
  }

  // ---------- Framing ----------

  /** The payload that yun139EncryptedRequest sends, before base64: the vector, then the ciphertext. */
  function Seal(aes: Aes, body: seq<byte>, key: seq<byte>, iv: Block): Failable<seq<byte>> {
    match AesCbcEncrypt(aes, body, key, iv)
    case Err(_) => Err(())
    case Ok(c) => Ok(iv + c)
  }

  /** How it reads a response, after base64. */
  function OpenSeal(aes: Aes, payload: seq<byte>, key: seq<byte>): Failable<seq<byte>> {
    if |payload| < BLOCK_SIZE then Err(())
    else AesCbcDecrypt(aes, payload[BLOCK_SIZE..], key, payload[..BLOCK_SIZE])
  }

  /** A body framed by one side is read by the other, for every body, vector and valid key. */
  lemma OpenUndoesSeal(aes: Aes, body: seq<byte>, key: seq<byte>, iv: Block)
    requires Invertible(aes)
    ensures Seal(aes, body, key, iv).Ok? <==> KeyOk(key)
    ensures KeyOk(key) ==> OpenSeal(aes, Seal(aes, body, key, iv).value, key) == Ok(body)
    ensures KeyOk(key) ==> var sent := Seal(aes, body, key, iv).value;
      && iv <= sent && Whole(sent[BLOCK_SIZE..])
      && IsPkcs7(CbcDecrypt(aes, key, iv, sent[BLOCK_SIZE..]), body, BLOCK_SIZE)
  {
    CbcUndone(aes, body, key, iv);
    hide AesCbcDecrypt, AesCbcEncrypt;
    if KeyOk(key) {
      var c := AesCbcEncrypt(aes, body, key, iv).value;
      assert (iv + c)[..BLOCK_SIZE] == iv && (iv + c)[BLOCK_SIZE..] == c;
    }
  }
}
