/** The two cipher modes of aes_alt.c that are done in software, counter mode and 8-bit
    cipher feedback, for any block function (sections 6.5 and 6.3 of NIST SP 800-38A). */
module AesModes {
  import opened Arithmetic

  type Byte = bv8

  type Block = b: seq<Byte> | |b| == 16 witness seq(16, _ => 0)

  // ----- counter mode

  /** The big-endian number in some bytes. */
  function Number(s: seq<Byte>): nat {
    if s == [] then 0 else 256 * Number(s[..|s| - 1]) + s[|s| - 1] as nat
  }

  /** The counter's loop: the last byte is incremented, and as long as that wraps the byte
      in front of it. */
  function Increment(s: seq<Byte>): (r: seq<Byte>)
    ensures |r| == |s|
  {
    if s == [] then []
    else
      var last := s[|s| - 1];
      if last == 255 then Increment(s[..|s| - 1]) + [0] else s[..|s| - 1] + [last + 1]
  }

  function Counter(c: Block, k: nat): Block {
    if k == 0 then c else Increment(Counter(c, k - 1))
  }

  /** nonce_counter, stream_block and *nc_off between two calls. */
  datatype Ctr = Ctr(counter: Block, stream: Block, off: nat)

  function CtrStep(encrypt: Block -> Block, s: Ctr, x: Byte): (Ctr, Byte)
    requires s.off < 16
  {
    var s := if s.off == 0 then Ctr(Increment(s.counter), encrypt(s.counter), 0) else s;
    (s.(off := if s.off == 15 then 0 else s.off + 1), x ^ s.stream[s.off])
  }

  /** mbedtls_aes_crypt_ctr */
  function CryptCtr(encrypt: Block -> Block, s: Ctr, input: seq<Byte>): (r: (Ctr, seq<Byte>))
    requires s.off < 16
    ensures r.0.off < 16 && |r.1| == |input|
  {
    if input == [] then (s, [])
    else
      var (q, out) := CryptCtr(encrypt, s, input[..|input| - 1]);
      var (r, y) := CtrStep(encrypt, q, input[|input| - 1]);
      (r, out + [y])
  }

  /** The counter counts modulo 2 to the power 128. */
  lemma {:induction false} IncrementAddsOne(s: seq<Byte>)
    ensures Number(s) < Power256(|s|)
    ensures Number(Increment(s)) == if Number(s) + 1 == Power256(|s|) then 0 else Number(s) + 1
  {
    if s != [] {
      var front, last := s[..|s| - 1], s[|s| - 1];
      IncrementAddsOne(front);
      var r := Increment(s);
      assert r[..|r| - 1] == if last == 255 then Increment(front) else front;
    }
  }

  /** 2 to the power 128. */
  const MODULUS := 0x1_0000_0000_0000_0000_0000_0000_0000_0000

  lemma ModulusIsPower()
    ensures Power256(16) == MODULUS
  {
    assert Power256(4) == 0x1_0000_0000;
    assert Power256(8) == 0x1_0000_0000_0000_0000;
    assert Power256(12) == 0x1_0000_0000_0000_0000_0000_0000;
  }

  /** Counter block k of a message is the first one plus k, modulo 2 to the power 128. */
  lemma {:induction false} CounterCounts(c: Block, k: nat)
    ensures Number(Counter(c, k)) == (Number(c) + k) % MODULUS
  {
    ModulusIsPower();
    hide Number, Power256;
    IncrementAddsOne(c);
    if k > 0 {
      CounterCounts(c, k - 1);
      IncrementAddsOne(Counter(c, k - 1));
    }
  }

  /** The state that n bytes from a block boundary lead to. */
  ghost predicate IsAfter(encrypt: Block -> Block, c: Block, n: nat, r: Ctr) {
    && r.off == n % 16
    && r.counter == Counter(c, (n + 15) / 16)
    && (n % 16 != 0 ==> r.stream == encrypt(Counter(c, n / 16)))
  }

  lemma BlockOf(n: nat)
    ensures (n + 16) / 16 == (n + 15) / 16 + if n % 16 == 0 then 1 else 0
    ensures (n + 1) % 16 == if n % 16 == 15 then 0 else n % 16 + 1
    ensures n % 16 == 0 ==> (n + 15) / 16 == n / 16
    ensures n % 16 != 15 ==> (n + 1) / 16 == n / 16
  {
  }

  lemma CtrStepMovesOn(encrypt: Block -> Block, c: Block, n: nat, q: Ctr, x: Byte)
    requires IsAfter(encrypt, c, n, q)
    ensures q.off < 16 && IsAfter(encrypt, c, n + 1, CtrStep(encrypt, q, x).0)
  {
    hide Increment;
    BlockOf(n);
  }

  lemma {:induction false} CtrState(encrypt: Block -> Block, s: Ctr, input: seq<Byte>)
    requires s.off == 0
    ensures IsAfter(encrypt, s.counter, |input|, CryptCtr(encrypt, s, input).0)
  {
    var n := |input|;
    if n > 0 {
      hide IsAfter, CtrStep;
      CtrState(encrypt, s, input[..n - 1]);
      CtrStepMovesOn(encrypt, s.counter, n - 1, CryptCtr(encrypt, s, input[..n - 1]).0, input[n - 1]);
    }
  }

  /** From a block boundary, output byte i is input byte i xor byte i mod 16 of the encrypted
      counter block i / 16. */
  lemma {:induction false} CtrFormula(encrypt: Block -> Block, s: Ctr, input: seq<Byte>, i: nat)
    requires s.off == 0 && i < |input|
    ensures CryptCtr(encrypt, s, input).1[i] == input[i] ^ encrypt(Counter(s.counter, i / 16))[i % 16]
  {
    hide IsAfter, CtrStep;
    var n := |input|;
    CtrState(encrypt, s, input[..n - 1]);
    if i < n - 1 {
      CtrFormula(encrypt, s, input[..n - 1], i);
    } else {
      CtrByteFormula(encrypt, s.counter, i, CryptCtr(encrypt, s, input[..i]).0, input[i]);
    }
  }

  lemma CtrByteFormula(encrypt: Block -> Block, c: Block, n: nat, q: Ctr, x: Byte)
    requires IsAfter(encrypt, c, n, q)
    ensures q.off < 16 && CtrStep(encrypt, q, x).1 == x ^ encrypt(Counter(c, n / 16))[n % 16]
  {
    hide Increment;
    BlockOf(n);
  }

  lemma CtrOneMore(encrypt: Block -> Block, s: Ctr, input: seq<Byte>, x: Byte)
    requires s.off < 16
    ensures var (q, out) := CryptCtr(encrypt, s, input);
            var (r, y) := CtrStep(encrypt, q, x);
            CryptCtr(encrypt, s, input + [x]) == (r, out + [y])
  {
    assert (input + [x])[..|input|] == input;
  }

  /** Any split of a message into two calls gives what one call gives, and leaves the same
      state for the next. */
  lemma {:induction false} CtrSplits(encrypt: Block -> Block, s: Ctr, a: seq<Byte>, b: seq<Byte>)
    requires s.off < 16
    ensures var (q, x) := CryptCtr(encrypt, s, a);
            var (r, y) := CryptCtr(encrypt, q, b);
            CryptCtr(encrypt, s, a + b) == (r, x + y)
    decreases |b|
  {
    var (q, x) := CryptCtr(encrypt, s, a);
    if b == [] {
      assert a + b == a && x + [] == x;
    } else {
      hide CryptCtr, CtrStep;
      var front, z := b[..|b| - 1], b[|b| - 1];
      CtrSplits(encrypt, s, a, front);
      var (u, y) := CryptCtr(encrypt, q, front);
      CtrOneMore(encrypt, q, front, z);
      CtrOneMore(encrypt, s, a + front, z);
      LastOfBoth(a, b);
      Associate(x, y, [CtrStep(encrypt, u, z).1]);
    }
  }

  lemma LastOfBoth(a: seq<Byte>, b: seq<Byte>)
    requires b != []
    ensures b == b[..|b| - 1] + [b[|b| - 1]] && a + b == (a + b[..|b| - 1]) + [b[|b| - 1]]
  {
  }

  lemma XorTwice(x: Byte, k: Byte)
    ensures (x ^ k) ^ k == x
  {
  }

  lemma CtrStepTwice(encrypt: Block -> Block, s: Ctr, x: Byte)
    requires s.off < 16
    ensures var (r, y) := CtrStep(encrypt, s, x); CtrStep(encrypt, s, y) == (r, x)
  {
    XorTwice(x, if s.off == 0 then encrypt(s.counter)[0] else s.stream[s.off]);
  }

  /** Counter mode undoes itself: twice from equal states is the identity. */
  lemma {:induction false} CtrTwice(encrypt: Block -> Block, s: Ctr, input: seq<Byte>)
    requires s.off < 16
    ensures var (r, out) := CryptCtr(encrypt, s, input); CryptCtr(encrypt, s, out) == (r, input)
    decreases |input|
  {
    if input != [] {
      hide CryptCtr, CtrStep;
      var front, x := input[..|input| - 1], input[|input| - 1];
      assert input == front + [x];
      CtrTwice(encrypt, s, front);
      var (q, out) := CryptCtr(encrypt, s, front);
      CtrOneMore(encrypt, s, front, x);
      CtrOneMore(encrypt, s, out, CtrStep(encrypt, q, x).1);
      CtrStepTwice(encrypt, q, x);
    }
  }

  // ----- 8-bit cipher feedback

  function Feed(iv: Block, c: Byte): Block {
    iv[1..] + [c]
  }

  function Cfb8Step(encrypt: Block -> Block, encrypting: bool, iv: Block, x: Byte): (Block, Byte) {
    var y := encrypt(iv)[0] ^ x;
    (Feed(iv, if encrypting then y else x), y)
  }

  /** mbedtls_aes_crypt_cfb8: the final initialisation vector and the output. */
  function CryptCfb8(encrypt: Block -> Block, encrypting: bool, iv: Block, input: seq<Byte>): (r: (Block, seq<Byte>))
    ensures |r.1| == |input|
  {
    if input == [] then (iv, [])
    else
      var (v, out) := CryptCfb8(encrypt, encrypting, iv, input[..|input| - 1]);
      var (w, y) := Cfb8Step(encrypt, encrypting, v, input[|input| - 1]);
      (w, out + [y])
  }

  lemma Cfb8OneMore(encrypt: Block -> Block, encrypting: bool, iv: Block, input: seq<Byte>, x: Byte)
    ensures var (v, out) := CryptCfb8(encrypt, encrypting, iv, input);
            var (w, y) := Cfb8Step(encrypt, encrypting, v, x);
            CryptCfb8(encrypt, encrypting, iv, input + [x]) == (w, out + [y])
  {
    assert (input + [x])[..|input|] == input;
  }

  lemma XorCancels(k: Byte, x: Byte)
    ensures k ^ (k ^ x) == x
  {
  }

  lemma Cfb8StepUndone(encrypt: Block -> Block, iv: Block, x: Byte)
    ensures var (w, y) := Cfb8Step(encrypt, true, iv, x); Cfb8Step(encrypt, false, iv, y) == (w, x)
  {
    XorCancels(encrypt(iv)[0], x);
  }

  /** Decryption undoes encryption from the same vector, and both end with the same vector. */
  lemma {:induction false} Cfb8RoundTrip(encrypt: Block -> Block, iv: Block, plain: seq<Byte>)
    ensures var (v, cipher) := CryptCfb8(encrypt, true, iv, plain);
            CryptCfb8(encrypt, false, iv, cipher) == (v, plain)
    decreases |plain|
  {
    if plain != [] {
      hide CryptCfb8, Cfb8Step;
      var front, x := plain[..|plain| - 1], plain[|plain| - 1];
      assert plain == front + [x];
      Cfb8RoundTrip(encrypt, iv, front);
      var (v, cipher) := CryptCfb8(encrypt, true, iv, front);
      Cfb8OneMore(encrypt, true, iv, front, x);
      Cfb8OneMore(encrypt, false, iv, cipher, Cfb8Step(encrypt, true, v, x).1);
      Cfb8StepUndone(encrypt, v, x);
    }
  }

  /** The vector is always the last 16 bytes of the first vector and the ciphertext after it:
      from 16 bytes on, decryption depends on nothing older. */
  lemma {:induction false} Cfb8Vector(encrypt: Block -> Block, encrypting: bool, iv: Block, input: seq<Byte>)
    ensures var (v, out) := CryptCfb8(encrypt, encrypting, iv, input);
            var fed := iv + (if encrypting then out else input);
            v == fed[|fed| - 16..]
  {
    if input != [] {
      var n := |input|;
      Cfb8Vector(encrypt, encrypting, iv, input[..n - 1]);
      var (v, out) := CryptCfb8(encrypt, encrypting, iv, input);
      var (u, front) := CryptCfb8(encrypt, encrypting, iv, input[..n - 1]);
      var fed, before := iv + (if encrypting then out else input), iv + (if encrypting then front else input[..n - 1]);
      assert fed == before + [fed[|fed| - 1]];
    }
  }

  function Xor(x: Byte, y: Byte): Byte {
    x ^ y
  }

  /** The sixteen bytes that precede byte i of what is fed back after the first vector. */
  function Window(iv: Block, fedBack: seq<Byte>, i: nat): Block
    requires i <= |fedBack|
  {
    (iv + fedBack)[i..i + 16]
  }

  lemma WindowIs(iv: Block, fedBack: seq<Byte>, i: nat)
    requires i <= |fedBack|
    ensures Window(iv, fedBack, i) == (iv + fedBack)[i..i + 16]
  {
  }

  lemma XorIs(x: Byte, y: Byte)
    ensures Xor(x, y) == x ^ y
  {
  }

  lemma SameWindow(iv: Block, a: seq<Byte>, x: Byte, i: nat)
    requires i <= |a|
    ensures Window(iv, a + [x], i) == Window(iv, a, i)
  {
    assert iv + (a + [x]) == iv + a + [x];
  }

  lemma LastWindow(iv: Block, a: seq<Byte>)
    ensures (iv + a)[|iv + a| - 16..] == Window(iv, a, |a|)
  {
  }

  /** The byte that one more byte of input adds to the output. */
  lemma Cfb8LastByte(encrypt: Block -> Block, encrypting: bool, iv: Block, input: seq<Byte>, x: Byte)
    ensures var (u, before) := CryptCfb8(encrypt, encrypting, iv, input);
            var (v, out) := CryptCfb8(encrypt, encrypting, iv, input + [x]);
            out == before + [Xor(x, encrypt(Window(iv, if encrypting then before else input, |input|))[0])]
  {
    hide CryptCfb8, Window;
    var (u, before) := CryptCfb8(encrypt, encrypting, iv, input);
    Cfb8OneMore(encrypt, encrypting, iv, input, x);
    Cfb8Vector(encrypt, encrypting, iv, input);
    LastWindow(iv, if encrypting then before else input);
    XorSwaps(encrypt(u)[0], x);
  }

  lemma {:induction false} Cfb8ByWindow(encrypt: Block -> Block, encrypting: bool, iv: Block, input: seq<Byte>, i: nat)
    requires i < |input|
    ensures var (v, out) := CryptCfb8(encrypt, encrypting, iv, input);
            out[i] == Xor(input[i], encrypt(Window(iv, if encrypting then out else input, i))[0])
    decreases |input|
  {
    hide CryptCfb8, Cfb8Step, Window, Xor;
    var n := |input|;
    var front, x := input[..n - 1], input[n - 1];
    assert input == front + [x];
    var (u, before) := CryptCfb8(encrypt, encrypting, iv, front);
    var y := Xor(x, encrypt(Window(iv, if encrypting then before else front, n - 1))[0]);
    Cfb8LastByte(encrypt, encrypting, iv, front, x);
    SameWindow(iv, if encrypting then before else front, if encrypting then y else x, i);
    if i < n - 1 {
      Cfb8ByWindow(encrypt, encrypting, iv, front, i);
    }
  }

  /** Output byte i is input byte i xor the first byte of the encryption of the 16 bytes that
      precede it in what has been fed back: the first vector, then the ciphertext. */
  lemma Cfb8Formula(encrypt: Block -> Block, encrypting: bool, iv: Block, input: seq<Byte>, i: nat)
    requires i < |input|
    ensures var (v, out) := CryptCfb8(encrypt, encrypting, iv, input);
            var fed := iv + (if encrypting then out else input);
            out[i] == input[i] ^ encrypt(fed[i..i + 16])[0]
  {
    hide CryptCfb8, Window, Xor;
    var (v, out) := CryptCfb8(encrypt, encrypting, iv, input);
    var fedBack := if encrypting then out else input;
    Cfb8ByWindow(encrypt, encrypting, iv, input, i);
    WindowIs(iv, fedBack, i);
    XorIs(input[i], encrypt(Window(iv, fedBack, i))[0]);
  }

  lemma XorSwaps(x: Byte, y: Byte)
    ensures x ^ y == y ^ x
  {
  }

  /** Any split of a message into two calls is as good as one call. */
  lemma {:induction false} Cfb8Splits(encrypt: Block -> Block, encrypting: bool, iv: Block, a: seq<Byte>, b: seq<Byte>)
    ensures var (u, x) := CryptCfb8(encrypt, encrypting, iv, a);
            var (v, y) := CryptCfb8(encrypt, encrypting, u, b);
            CryptCfb8(encrypt, encrypting, iv, a + b) == (v, x + y)
    decreases |b|
  {
    var (u, x) := CryptCfb8(encrypt, encrypting, iv, a);
    if b == [] {
      assert a + b == a && x + [] == x;
    } else {
      hide CryptCfb8, Cfb8Step;
      var front, z := b[..|b| - 1], b[|b| - 1];
      Cfb8Splits(encrypt, encrypting, iv, a, front);
      var (v, y) := CryptCfb8(encrypt, encrypting, u, front);
      Cfb8OneMore(encrypt, encrypting, u, front, z);
      Cfb8OneMore(encrypt, encrypting, iv, a + front, z);
      LastOfBoth(a, b);
      Associate(x, y, [Cfb8Step(encrypt, encrypting, v, z).1]);
    }
  }

  // ----- the loops

  /** Where the carry stops, at index i, or at -1 if it runs off the front. */
  lemma {:induction false} CarryStops(s: seq<Byte>, i: int)
    requires -1 <= i < |s| && (i >= 0 ==> s[i] != 255) && forall k :: i < k < |s| ==> s[k] == 255
    ensures forall k :: 0 <= k < |s| ==> Increment(s)[k] == if k < i then s[k] else if k == i then s[k] + 1 else 0
  {
    if i < |s| - 1 {
      CarryStops(s[..|s| - 1], i);
    }
  }

  /** The loop over nonce_counter. */
  method IncrementCounter(counter: array<Byte>)
    requires counter.Length == 16
    modifies counter
    ensures counter[..] == Increment(old(counter[..]))
  {
    hide Increment;
    var i := 16;
    ghost var was := counter[..];
    while i > 0
      invariant 0 <= i <= 16
      invariant forall k :: 0 <= k < i ==> counter[k] == was[k]
      invariant forall k :: i <= k < 16 ==> counter[k] == 0 && was[k] == 255
    {
      i := i - 1;
      counter[i] := if counter[i] == 255 then 0 else counter[i] + 1;
      if counter[i] != 0 {
        CarryStops(was, i);
        return;
      }
    }
    CarryStops(was, -1);
  }

  /** mbedtls_aes_crypt_ecb of the counter into stream_block, and the next counter. */
  method NextStreamBlock(encrypt: Block -> Block, nonceCounter: array<Byte>, streamBlock: array<Byte>)
    requires nonceCounter.Length == 16 && streamBlock.Length == 16 && nonceCounter != streamBlock
    modifies nonceCounter, streamBlock
    ensures streamBlock[..] == encrypt(old(nonceCounter[..])) && nonceCounter[..] == Increment(old(nonceCounter[..]))
  {
    ghost var was := nonceCounter[..];
    var block := encrypt(nonceCounter[..]);
    forall i | 0 <= i < 16 { streamBlock[i] := block[i]; }
    assert streamBlock[..] == block && nonceCounter[..] == was;
    hide Increment;
    IncrementCounter(nonceCounter);
  }

  /** What the loop of mbedtls_aes_crypt_ctr does with one byte. */
  method CtrByte(encrypt: Block -> Block, n: nat, nonceCounter: array<Byte>, streamBlock: array<Byte>, x: Byte)
    returns (next: nat, y: Byte)
    requires n < 16 && nonceCounter.Length == 16 && streamBlock.Length == 16 && nonceCounter != streamBlock
    modifies nonceCounter, streamBlock
    ensures (Ctr(nonceCounter[..], streamBlock[..], next), y) ==
            CtrStep(encrypt, old(Ctr(nonceCounter[..], streamBlock[..], n)), x)
  {
    if n == 0 {
      NextStreamBlock(encrypt, nonceCounter, streamBlock);
    }
    y := x ^ streamBlock[n];
    next := if n == 15 then 0 else n + 1;
  }

  lemma CtrPrefix(encrypt: Block -> Block, s: Ctr, text: seq<Byte>, i: nat)
    requires s.off < 16 && i < |text|
    ensures var (q, out) := CryptCtr(encrypt, s, text[..i]);
            var (r, y) := CtrStep(encrypt, q, text[i]);
            CryptCtr(encrypt, s, text[..i + 1]) == (r, out + [y])
  {
    assert text[..i + 1] == text[..i] + [text[i]];
    CtrOneMore(encrypt, s, text[..i], text[i]);
  }

  /** mbedtls_aes_crypt_ctr, in place if input and output are the same array; the answer is
      the new *nc_off. */
  method AesCryptCtr(encrypt: Block -> Block, length: nat, ncOff: nat, nonceCounter: array<Byte>,
                     streamBlock: array<Byte>,
                     input: array<Byte>, output: array<Byte>) returns (n: nat)
    requires ncOff < 16 && nonceCounter.Length == 16 && streamBlock.Length == 16
    requires length <= input.Length && length <= output.Length
    requires nonceCounter != streamBlock && nonceCounter != input && nonceCounter != output
    requires streamBlock != input && streamBlock != output
    modifies nonceCounter, streamBlock, output
    ensures n < 16
    ensures (Ctr(nonceCounter[..], streamBlock[..], n), output[..length]) ==
            CryptCtr(encrypt, old(Ctr(nonceCounter[..], streamBlock[..], ncOff)), old(input[..length]))
    ensures output[length..] == old(output[length..])
  {
    hide CryptCtr, CtrStep;
    ghost var s, text, was := Ctr(nonceCounter[..], streamBlock[..], ncOff), input[..length], output[..];
    ghost var done: seq<Byte> := [];
    CtrNothing(encrypt, s, text);
    n := ncOff;
    var i := 0;
    while i < length
      invariant i <= length && n < 16 && |done| == i
      invariant CryptCtr(encrypt, s, text[..i]) == (Ctr(nonceCounter[..], streamBlock[..], n), done)
      invariant forall k :: 0 <= k < i ==> output[k] == done[k]
      invariant forall k :: i <= k < length ==> input[k] == text[k]
      invariant forall k :: length <= k < output.Length ==> output[k] == was[k]
    {
      CtrPrefix(encrypt, s, text, i);
      var y;
      n, y := CtrByte(encrypt, n, nonceCounter, streamBlock, input[i]);
      output[i] := y;
      done := done + [y];
      i := i + 1;
    }
    assert text[..length] == text && output[..length] == done && output[length..] == was[length..];
  }

  lemma CtrNothing(encrypt: Block -> Block, s: Ctr, text: seq<Byte>)
    requires s.off < 16
    ensures CryptCtr(encrypt, s, text[..0]) == (s, [])
  {
  }

  /** What the loop of mbedtls_aes_crypt_cfb8 does with one byte. */
  method Cfb8Byte(encrypt: Block -> Block, encrypting: bool, iv: array<Byte>, x: Byte) returns (c: Byte)
    requires iv.Length == 16
    modifies iv
    ensures (iv[..], c) == Cfb8Step(encrypt, encrypting, old(iv[..]), x)
  {
    ghost var u := iv[..];
    var ov := new Byte[17];
    forall k | 0 <= k < 16 { ov[k] := iv[k]; }
    assert iv[..] == u;
    var block := encrypt(iv[..]);
    if !encrypting {
      ov[16] := x;
    }
    c := block[0] ^ x;
    if encrypting {
      ov[16] := c;
    }
    forall k | 0 <= k < 16 { iv[k] := ov[k + 1]; }
    assert iv[..] == Feed(u, if encrypting then c else x);
  }

  lemma Cfb8Prefix(encrypt: Block -> Block, encrypting: bool, iv: Block, text: seq<Byte>, i: nat)
    requires i < |text|
    ensures var (v, out) := CryptCfb8(encrypt, encrypting, iv, text[..i]);
            var (w, y) := Cfb8Step(encrypt, encrypting, v, text[i]);
            CryptCfb8(encrypt, encrypting, iv, text[..i + 1]) == (w, out + [y])
  {
    assert text[..i + 1] == text[..i] + [text[i]];
    Cfb8OneMore(encrypt, encrypting, iv, text[..i], text[i]);
  }

  /** mbedtls_aes_crypt_cfb8, in place if input and output are the same array. */
  method AesCryptCfb8(encrypt: Block -> Block, encrypting: bool, length: nat, iv: array<Byte>,
                      input: array<Byte>, output: array<Byte>)
    requires iv.Length == 16 && length <= input.Length && length <= output.Length && iv != input && iv != output
    modifies iv, output
    ensures (iv[..], output[..length]) == CryptCfb8(encrypt, encrypting, old(iv[..]), old(input[..length]))
    ensures output[length..] == old(output[length..])
  {
    hide CryptCfb8, Cfb8Step;
    ghost var v, text, was := iv[..], input[..length], output[..];
    ghost var done: seq<Byte> := [];
    Cfb8Nothing(encrypt, encrypting, v, text);
    var i := 0;
    while i < length
      invariant i <= length && |done| == i
      invariant CryptCfb8(encrypt, encrypting, v, text[..i]) == (iv[..], done)
      invariant forall k :: 0 <= k < i ==> output[k] == done[k]
      invariant forall k :: i <= k < length ==> input[k] == text[k]
      invariant forall k :: length <= k < output.Length ==> output[k] == was[k]
    {
      Cfb8Prefix(encrypt, encrypting, v, text, i);
      var c := Cfb8Byte(encrypt, encrypting, iv, input[i]);
      output[i] := c;
      done := done + [c];
      i := i + 1;
    }
    assert text[..length] == text && output[..length] == done && output[length..] == was[length..];
  }

  lemma Cfb8Nothing(encrypt: Block -> Block, encrypting: bool, iv: Block, text: seq<Byte>)
    ensures CryptCfb8(encrypt, encrypting, iv, text[..0]) == (iv, [])
  {
  }
}
