/** The transport encoding of jobs and results: zero padding, a block cipher and base64. */
module Transport {
  import opened CString

  const BLOCKSIZE := 16

  type Octet = c: char | c as int < 256
  type Octets = seq<Octet>

  function AsOctet(n: int): Octet
    requires 0 <= n < 256
  {
    n as char
  }

  // ---------------------------------------------------------------- base64, section 4 of RFC 4648

  function Digit64(v: int): char
    requires 0 <= v < 64
  {
    if v < 26 then ('A' as int + v) as char
    else if v < 52 then ('a' as int + v - 26) as char
    else if v < 62 then ('0' as int + v - 52) as char
    else if v == 62 then '+'
    else '/'
  }

  /** The decoder's table; the pad character counts as zero, -1 is an error. */
  function Value64(c: char): (v: int)
    ensures -1 <= v < 64
  {
    if 'A' <= c <= 'Z' then c as int - 'A' as int
    else if 'a' <= c <= 'z' then c as int - 'a' as int + 26
    else if '0' <= c <= '9' then c as int - '0' as int + 52
    else if c == '+' then 62
    else if c == '/' then 63
    else if c == '=' then 0
    else -1
  }

  function EncodeGroup(x: int, y: int, z: int): (t: string)
    requires 0 <= x < 256 && 0 <= y < 256 && 0 <= z < 256
    ensures |t| == 4
  {
    [Digit64(x / 4), Digit64(x % 4 * 16 + y / 16), Digit64(y % 16 * 4 + z / 64), Digit64(z % 64)]
  }

  /** The last one or two bytes, with pad characters. */
  function LastGroup(x: int, y: int, two: bool): (t: string)
    requires 0 <= x < 256 && 0 <= y < 256
    ensures |t| == 4
  {
    if two then EncodeGroup(x, y, 0)[..3] + "=" else EncodeGroup(x, y, 0)[..2] + "=="
  }

  /** EVP_EncodeBlock */
  function Base64(b: Octets): string {
    if |b| == 0 then ""
    else if |b| == 1 then LastGroup(b[0] as int, 0, false)
    else if |b| == 2 then LastGroup(b[0] as int, b[1] as int, true)
    else EncodeGroup(b[0] as int, b[1] as int, b[2] as int) + Base64(b[3..])
  }

  predicate ValidGroup(t: string)
    requires |t| == 4
  {
    Value64(t[0]) >= 0 && Value64(t[1]) >= 0 && Value64(t[2]) >= 0 && Value64(t[3]) >= 0
  }

  function DecodeGroup(t: string): (b: Octets)
    requires |t| == 4 && ValidGroup(t)
    ensures |b| == 3
  {
    var a, b, c, d := Value64(t[0]), Value64(t[1]), Value64(t[2]), Value64(t[3]);
    [AsOctet(a * 4 + b / 16), AsOctet(b % 16 * 16 + c / 4), AsOctet(c % 4 * 64 + d)]
  }

  /** Whole groups of three bytes, whatever has been padded. */
  function Unbase64(t: string): Option<Octets> {
    if t == "" then Some([])
    else if |t| < 4 || !ValidGroup(t[..4]) then None
    else
      var rest := Unbase64(t[4..]);
      if rest == None then None else Some(DecodeGroup(t[..4]) + rest.value)
  }

  lemma UpperLetter(v: nat)
    requires v < 26
    ensures "ABCDEFGHIJKLMNOPQRSTUVWXYZ"[v] as int == 'A' as int + v
  {
  }

  lemma LowerLetter(v: nat)
    requires v < 26
    ensures "abcdefghijklmnopqrstuvwxyz"[v] as int == 'a' as int + v
  {
  }

  /** Table 1 of RFC 4648. */
  lemma Alphabet(v: nat)
    requires v < 64
    ensures v < 26 ==> Digit64(v) == "ABCDEFGHIJKLMNOPQRSTUVWXYZ"[v]
    ensures 26 <= v < 52 ==> Digit64(v) == "abcdefghijklmnopqrstuvwxyz"[v - 26]
    ensures 52 <= v ==> Digit64(v) == "0123456789+/"[v - 52]
  {
    if v < 26 {
      UpperLetter(v);
    } else if v < 52 {
      LowerLetter(v - 26);
    }
  }

  lemma DigitValue(v: int)
    requires 0 <= v < 64
    ensures Value64(Digit64(v)) == v
  {
  }

  lemma SixBits(x: int, y: int, z: int)
    requires 0 <= x < 256 && 0 <= y < 256 && 0 <= z < 256
    ensures x / 4 * 4 + (x % 4 * 16 + y / 16) / 16 == x
    ensures (x % 4 * 16 + y / 16) % 16 * 16 + (y % 16 * 4 + z / 64) / 4 == y
    ensures (y % 16 * 4 + z / 64) % 4 * 64 + z % 64 == z
  {
    assert (x % 4 * 16 + y / 16) / 16 == x % 4;
    assert (x % 4 * 16 + y / 16) % 16 == y / 16;
    assert (y % 16 * 4 + z / 64) / 4 == y % 16;
    assert (y % 16 * 4 + z / 64) % 4 == z / 64;
  }

  lemma GroupRoundTrip(x: int, y: int, z: int)
    requires 0 <= x < 256 && 0 <= y < 256 && 0 <= z < 256
    ensures ValidGroup(EncodeGroup(x, y, z))
    ensures DecodeGroup(EncodeGroup(x, y, z)) == [AsOctet(x), AsOctet(y), AsOctet(z)]
  {
    hide Digit64, Value64, AsOctet;
    DigitValue(x / 4);
    DigitValue(x % 4 * 16 + y / 16);
    DigitValue(y % 16 * 4 + z / 64);
    DigitValue(z % 64);
    SixBits(x, y, z);
  }

  /** No blank, no newline, only what stands for a value. */
  predicate Digits(t: string) {
    forall c | c in t :: Value64(c) >= 0
  }

  lemma {:induction false} Base64Length(b: Octets)
    ensures |Base64(b)| == (|b| + 2) / 3 * 4
    ensures Digits(Base64(b))
  {
    hide EncodeGroup, LastGroup, Value64;
    if |b| > 2 {
      Base64Length(b[3..]);
      DigitsInGroup(b[0] as int, b[1] as int, b[2] as int);
    } else if |b| == 2 {
      DigitsInLast(b[0] as int, b[1] as int, true);
    } else if |b| == 1 {
      DigitsInLast(b[0] as int, 0, false);
    }
  }

  lemma DigitsInLast(x: int, y: int, two: bool)
    requires 0 <= x < 256 && 0 <= y < 256
    ensures Digits(LastGroup(x, y, two))
  {
    hide Value64, EncodeGroup;
    DigitsInGroup(x, y, 0);
    PadValue();
    var g := EncodeGroup(x, y, 0);
    assert forall c | c in g[..2] || c in g[..3] :: c in g;
  }

  lemma DigitsInGroup(x: int, y: int, z: int)
    requires 0 <= x < 256 && 0 <= y < 256 && 0 <= z < 256
    ensures Digits(EncodeGroup(x, y, z))
  {
    hide Digit64, Value64;
    DigitValue(x / 4);
    DigitValue(x % 4 * 16 + y / 16);
    DigitValue(y % 16 * 4 + z / 64);
    DigitValue(z % 64);
  }

  lemma {:induction false} Unbase64Length(t: string)
    requires Unbase64(t).Some?
    ensures |t| % 4 == 0 && |Unbase64(t).value| == |t| / 4 * 3 && Digits(t)
  {
    hide DecodeGroup, Unbase64, Value64;
    Unbase64Step(t);
    if t != "" {
      Unbase64Length(t[4..]);
      DigitsOfParts(t[..4], t[4..]);
      assert t == t[..4] + t[4..];
    }
  }

  lemma DigitsOfParts(g: string, t: string)
    requires |g| == 4 && ValidGroup(g) && Digits(t)
    ensures Digits(g + t)
  {
    hide Value64;
  }

  lemma Unbase64Step(t: string)
    requires Unbase64(t).Some?
    ensures t == "" ==> Unbase64(t).value == []
    ensures t != "" ==>
              |t| >= 4 && ValidGroup(t[..4]) && Unbase64(t[4..]).Some?
              && Unbase64(t).value == DecodeGroup(t[..4]) + Unbase64(t[4..]).value
  {
    hide DecodeGroup, ValidGroup;
  }

  lemma Base64Step(b: Octets)
    requires |b| > 2
    ensures Base64(b) == EncodeGroup(b[0] as int, b[1] as int, b[2] as int) + Base64(b[3..])
  {
    hide EncodeGroup;
  }

  /** What is missing to a multiple of three. */
  function Missing(n: nat): nat {
    if n % 3 == 0 then 0 else 3 - n % 3
  }

  /** What decoding gives back: the bytes, filled up with zeros to whole groups. */
  lemma {:induction false} Base64RoundTrip(b: Octets)
    ensures Unbase64(Base64(b)) == Some(b + Zeros(Missing(|b|)))
  {
    hide DecodeGroup, EncodeGroup, Unbase64, Base64, ValidGroup;
    if |b| > 2 {
      var g := EncodeGroup(b[0] as int, b[1] as int, b[2] as int);
      GroupRoundTrip(b[0] as int, b[1] as int, b[2] as int);
      assert DecodeGroup(g) == b[..3];
      Base64RoundTrip(b[3..]);
      Base64Step(b);
      Unbase64Group(g, Base64(b[3..]));
      assert |b[3..]| % 3 == |b| % 3;
      var z := Zeros(Missing(|b|));
      assert b[..3] + (b[3..] + z) == b + z;
    } else {
      ShortRoundTrip(b);
    }
  }

  lemma ShortRoundTrip(b: Octets)
    requires |b| <= 2
    ensures Unbase64(Base64(b)) == Some(b + Zeros(Missing(|b|)))
  {
    hide DecodeGroup, LastGroup, ValidGroup, Unbase64, Base64, AsOctet, Zeros, Missing;
    EmptyText();
    assert Missing(0) == 0 by { NothingMissing(); }
    Base64Short(b);
    if |b| == 0 {
      assert b + Zeros(0) == [];
    } else {
      MissingShort(|b|);
      LastRoundTrip(b, if |b| == 1 then 0 else b[1] as int);
    }
  }

  lemma NothingMissing()
    ensures Missing(0) == 0
  {
  }

  lemma MissingShort(n: nat)
    requires 0 < n < 3
    ensures Missing(n) == 3 - n
  {
  }

  lemma LastRoundTrip(b: Octets, y: int)
    requires (|b| == 1 && y == 0) || (|b| == 2 && y == b[1] as int)
    ensures Unbase64(LastGroup(b[0] as int, y, |b| == 2)) == Some(b + Zeros(3 - |b|))
  {
    hide DecodeGroup, LastGroup, ValidGroup, Unbase64, AsOctet;
    EmptyText();
    PaddedGroup(b[0] as int, y, |b| == 2);
    var g := LastGroup(b[0] as int, y, |b| == 2);
    Unbase64Group(g, "");
    assert g + "" == g;
    FilledUp(b, y);
  }

  lemma FilledUp(b: Octets, y: int)
    requires (|b| == 1 && y == 0) || (|b| == 2 && y == b[1] as int)
    ensures [AsOctet(b[0] as int), AsOctet(y), NUL] + [] == b + Zeros(3 - |b|)
  {
  }

  lemma Base64Short(b: Octets)
    ensures |b| == 0 ==> Base64(b) == ""
    ensures |b| == 1 ==> Base64(b) == LastGroup(b[0] as int, 0, false)
    ensures |b| == 2 ==> Base64(b) == LastGroup(b[0] as int, b[1] as int, true)
  {
  }

  lemma EmptyText()
    ensures Unbase64("") == Some([])
  {
  }

  lemma Unbase64Group(g: string, t: string)
    requires |g| == 4 && ValidGroup(g)
    ensures Unbase64(g + t) == if Unbase64(t) == None then None else Some(DecodeGroup(g) + Unbase64(t).value)
  {
    hide DecodeGroup, ValidGroup;
    assert (g + t)[..4] == g && (g + t)[4..] == t;
  }

  /** The pad characters decode like the zero digits they replace. */
  lemma PaddedGroup(x: int, y: int, two: bool)
    requires 0 <= x < 256 && 0 <= y < 256 && (!two ==> y == 0)
    ensures ValidGroup(LastGroup(x, y, two)) && DecodeGroup(LastGroup(x, y, two)) == [AsOctet(x), AsOctet(y), NUL]
  {
    hide Digit64, Value64, AsOctet;
    var g, p := EncodeGroup(x, y, 0), LastGroup(x, y, two);
    GroupRoundTrip(x, y, 0);
    DigitValue(0);
    assert Value64('=') == 0 by { PadValue(); }
    assert p[0] == g[0] && p[1] == g[1] && Value64(p[2]) == Value64(g[2]) && Value64(p[3]) == Value64(g[3]);
    assert AsOctet(0) == NUL by { ZeroOctet(); }
  }

  lemma PadValue()
    ensures Value64('=') == 0
  {
  }

  lemma ZeroOctet()
    ensures AsOctet(0) == NUL
  {
  }

  function Zeros(n: nat): (z: Octets)
    ensures |z| == n && forall i | 0 <= i < n :: z[i] == NUL
  {
    seq(n, _ => NUL as Octet)
  }

  /** Some of the examples in section 10 of RFC 4648. */
  lemma KnownEncodings()
    ensures Base64("") == "" && Base64("f") == "Zg==" && Base64("fo") == "Zm8=" && Base64("foo") == "Zm9v"
    ensures Base64("foob") == "Zm9vYg==" && Base64("foobar") == "Zm9vYmFy"
  {
    var three: Octets, four: Octets, six: Octets := "foo", "foob", "foobar";
    assert three[3..] == "" && four[3..] == "b" && six[3..] == "bar" && six[3..][3..] == "";
  }

  // ---------------------------------------------------------------- the block cipher

  /** A block cipher with its key: any bijection on blocks. */
  datatype Cipher = Cipher(enc: Octets -> Octets, dec: Octets -> Octets)

  ghost predicate Bijective(c: Cipher) {
    forall b: Octets {:trigger c.enc(b)} | |b| == BLOCKSIZE :: |c.enc(b)| == BLOCKSIZE && c.dec(c.enc(b)) == b
  }

  ghost predicate BlocksToBlocks(c: Cipher) {
    forall b: Octets {:trigger c.dec(b)} | |b| == BLOCKSIZE :: |c.dec(b)| == BLOCKSIZE
  }

  ghost predicate IsCipher(c: Cipher) {
    Bijective(c) && BlocksToBlocks(c)
  }

  /** Electronic code book: block by block; an incomplete last block is left out. */
  function Blocks(f: Octets -> Octets, b: Octets): Octets {
    if |b| < BLOCKSIZE then [] else f(b[..BLOCKSIZE]) + Blocks(f, b[BLOCKSIZE..])
  }

  function Whole(n: nat): (k: nat)
    ensures k <= n
  {
    n - n % BLOCKSIZE
  }

  lemma {:induction false} BlocksLength(f: Octets -> Octets, b: Octets)
    requires forall x: Octets {:trigger f(x)} | |x| == BLOCKSIZE :: |f(x)| == BLOCKSIZE
    ensures |Blocks(f, b)| == Whole(|b|)
  {
    if |b| >= BLOCKSIZE { BlocksLength(f, b[BLOCKSIZE..]); }
  }

  lemma {:induction false} BlocksConcat(f: Octets -> Octets, a: Octets, b: Octets)
    requires |a| % BLOCKSIZE == 0
    ensures Blocks(f, a + b) == Blocks(f, a) + Blocks(f, b)
  {
    if |a| == 0 {
      assert a + b == b;
    } else {
      var x := a[..BLOCKSIZE];
      assert (a + b)[..BLOCKSIZE] == x && (a + b)[BLOCKSIZE..] == a[BLOCKSIZE..] + b;
      BlocksConcat(f, a[BLOCKSIZE..], b);
    }
  }

  lemma {:induction false} BlocksRoundTrip(c: Cipher, b: Octets)
    requires IsCipher(c) && |b| % BLOCKSIZE == 0
    ensures Blocks(c.dec, Blocks(c.enc, b)) == b
  {
    if |b| != 0 {
      var x, rest := c.enc(b[..BLOCKSIZE]), Blocks(c.enc, b[BLOCKSIZE..]);
      BlocksRoundTrip(c, b[BLOCKSIZE..]);
      assert (x + rest)[..BLOCKSIZE] == x && (x + rest)[BLOCKSIZE..] == rest;
    }
  }

  /** The part of OpenSSL's context that matters with its own padding switched off: input that does
      not yet make up a block waits for more. */
  class Context {
    const cipher: Cipher
    var pending: Octets

    constructor (c: Cipher)
      ensures cipher == c && pending == []
    {
      cipher, pending := c, [];
    }

    method EncryptInit()
      modifies this
      ensures pending == []
    {
      pending := [];
    }

    method EncryptUpdate(out: array<Octet>, at: nat, input: Octets) returns (len: nat)
      requires IsCipher(cipher) && at + Whole(|pending| + |input|) <= out.Length
      modifies this, out
      ensures var all := old(pending) + input;
              && len == Whole(|all|) && pending == all[len..]
              && out[at..at + len] == Blocks(cipher.enc, all)
      ensures out[..at] == old(out[..at])
    {
      var all := pending + input;
      len := Whole(|all|);
      var crypted := Blocks(cipher.enc, all);
      BlocksLength(cipher.enc, all);
      Copy(out, at, crypted);
      pending := all[len..];
    }

    /** Fails if an incomplete block is left. */
    method EncryptFinal() returns (ok: bool)
      ensures ok <==> pending == []
    {
      ok := pending == [];
    }
  }

  // ---------------------------------------------------------------- encryption of a text

  /** The zero padding. The guard is the program's: it is false where a padding is needed most. */
  function Padded(p: Octets): Octets
    requires p != []
  {
    if BLOCKSIZE % |p| != 0 then p + Zeros(BLOCKSIZE - |p| % BLOCKSIZE) else p
  }

  /** The lengths for which the guard leaves an incomplete block. */
  predicate Unpaddable(n: nat) {
    n == 1 || n == 2 || n == 4 || n == 8
  }

  lemma PaddedLength(p: Octets)
    requires p != []
    ensures |Padded(p)| % BLOCKSIZE == 0 <==> !Unpaddable(|p|)
    ensures |p| <= |Padded(p)| <= |p| + BLOCKSIZE
  {
    var n := |p|;
    if n <= BLOCKSIZE {
      assert BLOCKSIZE % n == 0 <==> n == 1 || n == 2 || n == 4 || n == 8 || n == 16 by { Divisors(n); }
    } else {
      assert BLOCKSIZE % n == BLOCKSIZE;
    }
    PadFills(n);
  }

  lemma Divisors(n: nat)
    requires 0 < n <= BLOCKSIZE
    ensures BLOCKSIZE % n == 0 <==> n == 1 || n == 2 || n == 4 || n == 8 || n == 16
  {
    assert 16 % 3 == 1 && 16 % 5 == 1 && 16 % 6 == 4 && 16 % 7 == 2;
    assert 16 % 9 == 7 && 16 % 10 == 6 && 16 % 11 == 5 && 16 % 12 == 4 && 16 % 13 == 3 && 16 % 14 == 2 && 16 % 15 == 1;
  }

  /** The guard fails for exactly the lengths that divide a block without being one. */
  lemma GuardMisses(p: Octets)
    requires p != []
    ensures Unpaddable(|p|) <==> BLOCKSIZE % |p| == 0 && |p| % BLOCKSIZE != 0
    ensures BLOCKSIZE % |p| == 0 ==> Padded(p) == p
  {
    if |p| <= BLOCKSIZE { Divisors(|p|); }
  }

  lemma PadFills(n: nat)
    ensures (n + (BLOCKSIZE - n % BLOCKSIZE)) % BLOCKSIZE == 0
  {
  }

  lemma WholeMultiple(n: nat)
    ensures Whole(n) % BLOCKSIZE == 0 && (Whole(n) == n <==> n % BLOCKSIZE == 0) && n - Whole(n) == n % BLOCKSIZE
  {
  }

  /** The padding completes exactly one block. */
  lemma PaddingBlock(p: Octets)
    requires p != [] && BLOCKSIZE % |p| != 0
    ensures var last := p[Whole(|p|)..] + Zeros(BLOCKSIZE - |p| % BLOCKSIZE);
            |last| == BLOCKSIZE && Padded(p) == p[..Whole(|p|)] + last
  {
    WholeMultiple(|p|);
    var k := Whole(|p|);
    assert p == p[..k] + p[k..];
  }

  lemma BlocksOfWhole(f: Octets -> Octets, b: Octets)
    ensures Blocks(f, b) == Blocks(f, b[..Whole(|b|)])
  {
    hide Blocks, Whole;
    WholeMultiple(|b|);
    var k := Whole(|b|);
    BlocksConcat(f, b[..k], b[k..]);
    assert b == b[..k] + b[k..];
    NoBlock(f, b[k..]);
    assert Blocks(f, b[..k]) + [] == Blocks(f, b[..k]);
  }

  lemma NoBlock(f: Octets -> Octets, b: Octets)
    requires |b| < BLOCKSIZE
    ensures Blocks(f, b) == []
  {
  }

  /** The second update: zeros up to the end of the block. */
  method PadWithZeros(ctx: Context, ciphertext: array<Octet>, len: nat, plaintext: Octets) returns (more: nat)
    requires IsCipher(ctx.cipher) && plaintext != [] && BLOCKSIZE % |plaintext| != 0
    requires len == Whole(|plaintext|) && ctx.pending == plaintext[len..] && len + BLOCKSIZE <= ciphertext.Length
    requires ciphertext[..len] == Blocks(ctx.cipher.enc, plaintext)
    modifies ctx, ciphertext
    ensures ctx.pending == [] && len + more == |Padded(plaintext)| <= ciphertext.Length
    ensures ciphertext[..len + more] == Blocks(ctx.cipher.enc, Padded(plaintext))
  {
    hide Blocks, IsCipher, Whole, Padded;
    var zeros := Zeros(BLOCKSIZE - |plaintext| % BLOCKSIZE);
    PaddingBlock(plaintext);
    WholeMultiple(BLOCKSIZE);
    WholeMultiple(|plaintext|);
    BlocksOfWhole(ctx.cipher.enc, plaintext);
    ghost var last := ctx.pending + zeros;
    BlocksConcat(ctx.cipher.enc, plaintext[..len], last);
    more := ctx.EncryptUpdate(ciphertext, len, zeros);
    assert ciphertext[..len + more] == ciphertext[..len] + ciphertext[len..len + more];
  }

  /** mod_gm_aes_encrypt into a buffer with room for two more blocks. */
  method AesEncrypt(ctx: Context, ciphertext: array<Octet>, plaintext: Octets) returns (ciphertext_len: int)
    requires IsCipher(ctx.cipher) && plaintext != [] && |plaintext| + 2 * BLOCKSIZE <= ciphertext.Length
    modifies ctx, ciphertext
    ensures if Unpaddable(|plaintext|) then ciphertext_len == -1
            else
              && ciphertext_len == |Padded(plaintext)| <= ciphertext.Length
              && ciphertext[..ciphertext_len] == Blocks(ctx.cipher.enc, Padded(plaintext))
  {
    hide Blocks, IsCipher, Whole, Padded, Unpaddable;
    GuardMisses(plaintext);
    WholeMultiple(|plaintext|);
    ctx.EncryptInit();
    assert [] + plaintext == plaintext;
    var len := ctx.EncryptUpdate(ciphertext, 0, plaintext);
    ciphertext_len := len;
    assert ciphertext[0..len] == ciphertext[..len];
    ghost var left := ctx.pending;
    assert left == [] <==> |plaintext| % BLOCKSIZE == 0;
    if BLOCKSIZE % |plaintext| != 0 {
      var more := PadWithZeros(ctx, ciphertext, len, plaintext);
      ciphertext_len := ciphertext_len + more;
    }
    var ok := ctx.EncryptFinal();
    if !ok { return -1; }
  }

  // ---------------------------------------------------------------- sending

  datatype Mode = EncodeOnly | EncodeAndEncrypt | AcceptAll

  /** The bytes behind the base64 of a message; encryption includes the text's NUL. In the clear, the empty
      text has none. */
  function Sealed(c: Cipher, text: Octets, mode: Mode): Option<Octets> {
    if mode != EncodeAndEncrypt then (if text == [] then None else Some(text))
    else if Unpaddable(|text| + 1) then None
    else Some(Blocks(c.enc, Padded(text + [NUL])))
  }

  /** base64_encode: the allocated size covers the text and its NUL; for no bytes the result is null. */
  method Base64Encode(source: Octets) returns (target: array?<char>)
    ensures target == null <==> source == []
    ensures target != null ==> fresh(target) && CStr(target[..]) == Base64(source)
  {
    hide Base64, CStr;
    target := new char[|source| / 3 * 4 + 5];
    var t := Base64(source);
    if source == [] { return null; }
    Base64Length(source);
    Base64HasNoNul(source);
    Copy(target, 0, t);
    target[|t|] := NUL;
    assert target[..][..|t|] == t;
    CStrTo(target[..], |t|);
  }

  lemma {:induction false} Base64HasNoNul(b: Octets)
    ensures NUL !in Base64(b)
  {
    hide Digit64;
    if |b| > 2 { Base64HasNoNul(b[3..]); }
    forall v: int | 0 <= v < 64 ensures Digit64(v) != NUL { DigitIsNoNul(v); }
  }

  lemma DigitIsNoNul(v: int)
    requires 0 <= v < 64
    ensures Digit64(v) != NUL
  {
  }

  datatype Sending =
    | Ready(size: nat, ciphertext: array<char>)
    | Refused       // -1
    | LengthOfNull  // strlen of the null pointer that base64_encode has returned

  /** mod_gm_encrypt */
  method Encrypt(ctx: Context, plaintext: Octets, mode: Mode) returns (r: Sending)
    requires IsCipher(ctx.cipher)
    modifies ctx
    ensures var sealed := Sealed(ctx.cipher, plaintext, mode);
            if sealed.Some? then
              r.Ready? && r.size == |Base64(sealed.value)| && CStr(r.ciphertext[..]) == Base64(sealed.value)
            else
              r == if mode == EncodeAndEncrypt then Refused else LengthOfNull
  {
    hide Base64, CStr, Blocks, IsCipher, Padded, Unpaddable;
    var crypted := plaintext;
    if mode == EncodeAndEncrypt {
      var buffer := new Octet[|plaintext| + 1 + 2 * BLOCKSIZE];
      var n := AesEncrypt(ctx, buffer, plaintext + [NUL]);
      PaddedLength(plaintext + [NUL]);
      if n <= 0 { return Refused; }
      crypted := buffer[..n];
    }
    var base64 := Base64Encode(crypted);
    if base64 == null { return LengthOfNull; }
    r := Ready(|Base64(crypted)|, base64);
  }

  // ---------------------------------------------------------------- receiving

  function Stripped(t: string): string {
    if t == "" then "" else if t[|t| - 1] == '\n' then Stripped(t[..|t| - 1]) else Stripped(t[..|t| - 1]) + [t[|t| - 1]]
  }

  /** EVP_DecodeBlock skips blanks in front of a text and what cannot be base64 behind it. */
  predicate Blank(c: char) {
    c == ' ' || c == '\t'
  }

  predicate LineEnd(c: char) {
    Blank(c) || c == '\n' || c == '\r' || c == '-'
  }

  function TrimFront(t: string): (r: string)
    ensures |r| <= |t| && r == t[|t| - |r|..]
  {
    if t != "" && Blank(t[0]) then TrimFront(t[1..]) else t
  }

  function TrimBack(t: string): (r: string)
    ensures r <= t
  {
    if |t| > 3 && LineEnd(t[|t| - 1]) then TrimBack(t[..|t| - 1]) else t
  }

  function DecodeLine(t: string): Option<Octets> {
    Unbase64(TrimBack(TrimFront(t)))
  }

  /** base64_decode: newlines inside a text are only taken out when decoding has failed with them. */
  function Decoded(t: string): Option<Octets> {
    if DecodeLine(t) != None then DecodeLine(t) else DecodeLine(Stripped(t))
  }

  /** Takes the newlines out of a text. */
  method StripNewlines(source: string) returns (stripped: string)
    ensures stripped == Stripped(source)
  {
    var buffer := new char[|source| + 1];
    var j := 0;
    for i := 0 to |source|
      invariant 0 <= j <= i && buffer[..j] == Stripped(source[..i])
    {
      assert source[..i + 1][..i] == source[..i];
      if source[i] != '\n' {
        buffer[j] := source[i];
        j := j + 1;
      }
    }
    buffer[j] := NUL;
    assert source[..|source|] == source;
    stripped := buffer[..j];
  }

  lemma {:induction false} StrippedLength(t: string)
    ensures |Stripped(t)| <= |t|
    ensures '\n' !in t ==> Stripped(t) == t
  {
    if t != "" { StrippedLength(t[..|t| - 1]); }
  }

  /** A newline goes, wherever it is. */
  lemma {:induction false} NewlineGoes(a: string, b: string)
    ensures Stripped(a + "\n" + b) == Stripped(a + b)
    decreases |b|
  {
    if b == "" {
      assert (a + "\n" + b)[..|a|] == a && a + b == a;
    } else {
      var n := |b| - 1;
      assert (a + "\n" + b)[..|a| + 1 + n] == a + "\n" + b[..n] && (a + b)[..|a| + n] == a + b[..n];
      NewlineGoes(a, b[..n]);
    }
  }

  /** Taking out newlines takes out nothing else. */
  lemma {:induction false} StrippedKeeps(t: string, c: char)
    requires c in t && c != '\n'
    ensures c in Stripped(t)
  {
    if t[|t| - 1] != c { StrippedKeeps(t[..|t| - 1], c); }
  }

  lemma DecodedLength(t: string)
    requires DecodeLine(t).Some?
    ensures |DecodeLine(t).value| <= |t| / 4 * 3
  {
    hide Unbase64;
    Unbase64Length(TrimBack(TrimFront(t)));
  }

  method DecodeBlock(target: array<Octet>, t: string) returns (n: int)
    requires |t| / 4 * 3 <= target.Length
    modifies target
    ensures if DecodeLine(t) == None then n == -1
            else n == |DecodeLine(t).value| <= |t| / 4 * 3 && target[..n] == DecodeLine(t).value
  {
    hide DecodeLine;
    var r := DecodeLine(t);
    if r == None {
      var garbage := new Octet[target.Length];
      forall i | 0 <= i < target.Length { target[i] := garbage[i]; }
      return -1;
    }
    DecodedLength(t);
    Copy(target, 0, r.value);
    n := |r.value|;
    assert target[..n] == target[0..n];
  }

  method Base64Decode(source: string, target: array<Octet>) returns (n: int)
    requires |source| / 4 * 3 <= target.Length
    modifies target
    ensures if Decoded(source) == None then n == -1
            else n == |Decoded(source).value| <= target.Length && target[..n] == Decoded(source).value
    ensures n <= |source| / 4 * 3
  {
    hide DecodeLine, Stripped;
    n := DecodeBlock(target, source);
    if n == -1 {
      var stripped := StripNewlines(source);
      StrippedLength(source);
      assert |stripped| / 4 * 3 <= |source| / 4 * 3;
      n := DecodeBlock(target, stripped);
    }
  }

  predicate Decrypts(b: Octets, mode: Mode) {
    mode == EncodeAndEncrypt || (mode == AcceptAll && !("type=" <= b))
  }

  /** The bytes mod_gm_decrypt ends up with. What base64 has added at the end is cut off before
      decryption. */
  function Opened(c: Cipher, text: string, mode: Mode): Option<Octets> {
    var b := Decoded(text);
    if b == None then None
    else if Decrypts(b.value, mode) then
      Some(Blocks(c.dec, b.value[..Whole(|b.value|)]))
    else b
  }

  /** mod_gm_decrypt: the result is a C string in any case. Decrypted bytes without a NUL of their own
      are followed by whatever the new buffer contains. */
  method Decrypt(ctx: Context, ciphertext: string, mode: Mode) returns (rc: int, plaintext: array<Octet>)
    requires IsCipher(ctx.cipher)
    ensures rc == if Opened(ctx.cipher, ciphertext, mode) == None then -1 else 1
    ensures rc == 1 ==> NUL in plaintext[..]
    ensures rc == 1
            && (NUL in Opened(ctx.cipher, ciphertext, mode).value || !Decrypts(Decoded(ciphertext).value, mode)) ==>
              CStr(plaintext[..]) == CStr(Opened(ctx.cipher, ciphertext, mode).value)
  {
    hide Blocks, Decoded, CStr, Whole, Bijective;
    var max_size := |ciphertext| / 4 * 3 + 5;
    var buffer := new Octet[max_size];
    plaintext := buffer;
    var bsize := Base64Decode(ciphertext, buffer);
    if bsize == -1 { return -1, plaintext; }
    var b := buffer[..bsize];
    if Decrypts(b, mode) {
      WholeMultiple(bsize);
      bsize := Whole(bsize);
      assert buffer[..bsize] == b[..bsize];
      plaintext := new Octet[max_size];
      var clear := Blocks(ctx.cipher.dec, b[..bsize]);
      BlocksLength(ctx.cipher.dec, b[..bsize]);
      WholeOfWhole(|b|);
      Copy(plaintext, 0, clear);
      plaintext[max_size - 1] := NUL;
      assert plaintext[..][max_size - 1] == NUL;
      assert plaintext[..] == clear + plaintext[|clear|..];
      CStrPrefix(clear, plaintext[|clear|..]);
    } else {
      buffer[bsize] := NUL;
      assert buffer[..][bsize] == NUL;
      assert buffer[..] == b + buffer[bsize..];
      CStrUpTo(b, buffer[bsize..]);
    }
    rc := 1;
  }

  lemma WholeOfWhole(n: nat)
    ensures Whole(Whole(n)) == Whole(n)
  {
  }

  // ---------------------------------------------------------------- there and back

  lemma EndsAreNoDigits()
    ensures forall c | LineEnd(c) :: Value64(c) < 0
  {
  }

  lemma DigitsAreNoEnd(t: string)
    requires Digits(t)
    ensures TrimFront(t) == t && TrimBack(t) == t
  {
    hide Value64;
    EndsAreNoDigits();
    assert t != "" ==> !LineEnd(t[0]);
  }

  lemma StrippedEnd(t: string)
    requires t != "" && t[|t| - 1] == '\n'
    ensures Stripped(t[..|t| - 1]) == Stripped(t)
  {
  }

  /** What is trimmed off a text of digits and newlines is newlines. */
  lemma {:induction false} TrimmedNewlines(t: string)
    requires Digits(Stripped(t))
    ensures TrimFront(t) == t && Stripped(TrimBack(t)) == Stripped(t)
  {
    hide Stripped, Value64;
    EndsAreNoDigits();
    if t != "" {
      if t[0] != '\n' { StrippedKeeps(t, t[0]); }
      if |t| > 3 && LineEnd(t[|t| - 1]) {
        if t[|t| - 1] != '\n' { StrippedKeeps(t, t[|t| - 1]); }
        StrippedEnd(t);
        TrimmedNewlines(t[..|t| - 1]);
      }
    }
  }

  lemma DigitsHaveNoNewline(t: string)
    requires Digits(t)
    ensures '\n' !in t
  {
  }

  /** Newlines anywhere in the base64 make no difference. */
  lemma NewlinesAreHarmless(t: string, b: Octets)
    requires Stripped(t) == Base64(b)
    ensures Decoded(t) == Some(b + Zeros(Missing(|b|)))
  {
    hide Unbase64, Base64, Stripped, Digits, TrimFront, TrimBack;
    Base64RoundTrip(b);
    Base64Length(b);
    TrimmedNewlines(t);
    DigitsAreNoEnd(Base64(b));
    var u := TrimBack(t);
    if DecodeLine(t) != None {
      Unbase64Length(u);
      DigitsHaveNoNewline(u);
      StrippedLength(u);
    }
  }

  /** The bytes that base64 adds are fewer than a block, and cutting to whole blocks takes off
      exactly them. */
  lemma ArtefactsAreCut(k: nat)
    requires k % BLOCKSIZE == 0
    ensures Missing(k) < BLOCKSIZE && Whole(k + Missing(k)) == k
  {
  }

  /** What has been sent is read again: encrypted for all texts the guard lets through, in the clear
      for all texts but the empty one, with newlines inserted anywhere on the way. */
  lemma TransportRoundTrip(c: Cipher, s: Octets, mode: Mode, t: string)
    requires IsCipher(c) && NUL !in s && mode != AcceptAll
    requires Sealed(c, s, mode).Some? && Stripped(t) == Base64(Sealed(c, s, mode).value)
    ensures Opened(c, t, mode).Some? && CStr(Opened(c, t, mode).value) == s
    ensures mode == EncodeAndEncrypt ==> NUL in Opened(c, t, mode).value
  {
    hide Blocks, Stripped, Base64, Decoded, Bijective, BlocksToBlocks, CStr, Whole, Padded, Unpaddable;
    var b := Sealed(c, s, mode).value;
    NewlinesAreHarmless(t, b);
    var z := Zeros(Missing(|b|));
    if mode == EncodeAndEncrypt {
      SealedIsWhole(c, s);
      ArtefactsAreCut(|b|);
      assert (b + z)[..|b|] == b;
      PaddedStarts(s);
    } else {
      if z == [] {
        assert b + z == s;
        CStrOf(s, [NUL]);
        CStrUpTo(s, [NUL]);
      } else {
        CStrOf(s, z);
      }
    }
  }

  lemma SealedIsWhole(c: Cipher, s: Octets)
    requires IsCipher(c) && !Unpaddable(|s| + 1)
    ensures var b := Blocks(c.enc, Padded(s + [NUL]));
            |b| % BLOCKSIZE == 0 && Blocks(c.dec, b) == Padded(s + [NUL])
  {
    hide Blocks;
    PaddedLength(s + [NUL]);
    BlocksLength(c.enc, Padded(s + [NUL]));
    WholeMultiple(|Padded(s + [NUL])|);
    BlocksRoundTrip(c, Padded(s + [NUL]));
  }

  lemma PaddedStarts(s: Octets)
    requires NUL !in s
    ensures CStr(Padded(s + [NUL])) == s && NUL in Padded(s + [NUL])
  {
    hide CStr;
    var p := Padded(s + [NUL]);
    assert p == s + p[|s|..] && p[|s|] == NUL;
    CStrOf(s, p[|s|..]);
  }

  lemma PrefixWithZeros(b: Octets, n: nat)
    ensures "type=" <= b + Zeros(n) <==> "type=" <= b
  {
    var t, p := b + Zeros(n), "type=";
    assert forall i | 0 <= i < |p| :: p[i] != NUL;
    assert |b| < |t| ==> t[|b|] == NUL;
    assert |b| >= |p| ==> t[..|p|] == b[..|p|];
    assert p <= t ==> forall i | 0 <= i < |p| :: t[i] == p[i];
  }

  /** A receiver that accepts clear results reads both kinds, as long as a clear message begins with
      its type and an encrypted one does not happen to. */
  lemma AcceptAllReadsBoth(c: Cipher, s: Octets, mode: Mode, t: string)
    requires IsCipher(c) && NUL !in s && mode != AcceptAll
    requires Sealed(c, s, mode).Some? && Stripped(t) == Base64(Sealed(c, s, mode).value)
    requires "type=" <= Sealed(c, s, mode).value <==> mode == EncodeOnly
    ensures Opened(c, t, AcceptAll).Some? && Opened(c, t, AcceptAll) == Opened(c, t, mode)
    ensures CStr(Opened(c, t, AcceptAll).value) == s
  {
    hide Blocks, Stripped, Base64, Decoded, Bijective, BlocksToBlocks, CStr, Whole, Padded, Unpaddable;
    var b := Sealed(c, s, mode).value;
    TransportRoundTrip(c, s, mode, t);
    NewlinesAreHarmless(t, b);
    PrefixWithZeros(b, Missing(|b|));
  }
}
