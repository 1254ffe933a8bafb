/** Offsets and sizes of encrypted files (gocrypt/contentenc/offsets.go and intrablock.go):
    a header, then blocks of `plainBS` plaintext bytes plus a fixed overhead each. */
module ContentLayout {

  const HEADER_LEN := 18
  const DEFAULT_BS := 4096
  const MAX_KERNEL_WRITE := 131072
  const UINT64 := 0x1_0000_0000_0000_0000

  /** `overhead` is the nonce length plus the 16 byte tag. */
  datatype Layout = Layout(plainBS: nat, overhead: nat) {
    function CipherBS(): nat { plainBS + overhead }
  }

  predicate Usable(l: Layout) {
    l.plainBS >= 1
  }

  // ------------------------------------------------------------------ arithmetic

  function Min(x: nat, y: nat): nat {
    if x < y then x else y
  }

  lemma DivUnique(x: nat, d: nat, q: nat)
    requires d > 0 && q * d <= x < q * d + d
    ensures x / d == q
  {
    DivBounds(x, d);
    assert (x / d - q) * d < d && (q - x / d) * d < d;
    CancelStrict(x / d - q, d);
    CancelStrict(q - x / d, d);
  }

  lemma CancelStrict(a: int, d: nat)
    requires d > 0 && a * d < d
    ensures a <= 0
  {
  }

  lemma DivBounds(x: nat, d: nat)
    requires d > 0
    ensures (x / d) * d <= x < (x / d) * d + d
  {
  }

  lemma MulMono(a: nat, b: nat, c: nat)
    requires a <= b
    ensures a * c <= b * c
  {
  }

  lemma Distribute(k: nat, a: nat, b: nat)
    ensures k * (a + b) == k * a + k * b
  {
  }

  lemma NextParts(k: nat, d: nat)
    ensures (k + 1) * d == k * d + d
  {
  }

  /** Multiplication by repeated addition. */
  function Times(k: nat, d: nat): nat {
    if k == 0 then 0 else d + Times(k - 1, d)
  }

  lemma {:induction false} TimesIsProduct(k: nat, d: nat)
    ensures Times(k, d) == k * d
  {
    if k > 0 {
      TimesIsProduct(k - 1, d);
      NextParts(k - 1, d);
    }
  }

  // -------------------------------------------------------------- block positions

  function PlainOffToBlockNo(l: Layout, plainOffset: nat): nat
    requires Usable(l)
  {
    plainOffset / l.plainBS
  }

  /** The source panics on an offset inside the header. */
  function CipherOffToBlockNo(l: Layout, cipherOffset: nat): nat
    requires Usable(l) && cipherOffset >= HEADER_LEN
  {
    (cipherOffset - HEADER_LEN) / l.CipherBS()
  }

  function BlockNoToCipherOff(l: Layout, blockNo: nat): nat {
    HEADER_LEN + blockNo * l.CipherBS()
  }

  function BlockNoToPlainOff(l: Layout, blockNo: nat): nat {
    blockNo * l.plainBS
  }

  lemma BlockPositions(l: Layout, blockNo: nat, within: nat)
    requires Usable(l)
    ensures within < l.plainBS ==> PlainOffToBlockNo(l, BlockNoToPlainOff(l, blockNo) + within) == blockNo
    ensures within < l.CipherBS() ==> CipherOffToBlockNo(l, BlockNoToCipherOff(l, blockNo) + within) == blockNo
  {
    if within < l.plainBS { DivUnique(blockNo * l.plainBS + within, l.plainBS, blockNo); }
    if within < l.CipherBS() { DivUnique(blockNo * l.CipherBS() + within, l.CipherBS(), blockNo); }
  }

  // ------------------------------------------------------------------------ sizes

  function CipherSizeToPlainSize(l: Layout, cipherSize: nat): nat
    requires Usable(l)
  {
    if cipherSize == 0 then 0
    else if cipherSize == HEADER_LEN then 0
    else if cipherSize < HEADER_LEN then 0
    else
      var blockNo := CipherOffToBlockNo(l, cipherSize - 1);
      var blockCount := blockNo + 1;
      var overhead := l.overhead * blockCount + HEADER_LEN;
      if overhead > cipherSize then 0 else cipherSize - overhead
  }

  function PlainSizeToCipherSize(l: Layout, plainSize: nat): nat
    requires Usable(l)
  {
    if plainSize == 0 then 0
    else
      var blockNo := PlainOffToBlockNo(l, plainSize - 1);
      var blockCount := blockNo + 1;
      plainSize + (l.overhead * blockCount + HEADER_LEN)
  }

  /** A file of `k` full blocks and a last block of `r` ciphertext bytes. */
  lemma CipherSizeParts(l: Layout, k: nat, r: nat)
    requires Usable(l) && 1 <= r <= l.CipherBS()
    ensures CipherSizeToPlainSize(l, HEADER_LEN + k * l.CipherBS() + r) ==
      if k * l.plainBS + r >= l.overhead then k * l.plainBS + r - l.overhead else 0
  {
    var c := HEADER_LEN + k * l.CipherBS() + r;
    BlockPositions(l, k, r - 1);
    assert CipherOffToBlockNo(l, c - 1) == k;
    Distribute(k, l.plainBS, l.overhead);
    Distribute(l.overhead, k, 1);
  }

  lemma PlainSizeParts(l: Layout, k: nat, r: nat)
    requires Usable(l) && 1 <= r <= l.plainBS
    ensures PlainSizeToCipherSize(l, k * l.plainBS + r) == HEADER_LEN + k * l.CipherBS() + r + l.overhead
  {
    BlockPositions(l, k, r - 1);
    assert PlainOffToBlockNo(l, k * l.plainBS + r - 1) == k;
    Distribute(k, l.plainBS, l.overhead);
    Distribute(l.overhead, k, 1);
  }

  /** Every size is some number of full blocks and a non-empty last one. */
  lemma Parts(n: nat, bs: nat) returns (k: nat, r: nat)
    requires n >= 1 && bs >= 1
    ensures n == k * bs + r && 1 <= r <= bs && k == (n - 1) / bs
  {
    k := (n - 1) / bs;
    DivBounds(n - 1, bs);
    r := n - k * bs;
  }

  /** Encrypting and decrypting a size is the identity. */
  lemma PlainCipherPlain(l: Layout, plainSize: nat)
    requires Usable(l)
    ensures CipherSizeToPlainSize(l, PlainSizeToCipherSize(l, plainSize)) == plainSize
  {
    if plainSize > 0 {
      var k, r := Parts(plainSize, l.plainBS);
      PlainSizeParts(l, k, r);
      CipherSizeParts(l, k, r + l.overhead);
    }
  }

  lemma PlainToCipherIncreasing(l: Layout, p: nat, q: nat)
    requires Usable(l) && p < q
    ensures PlainSizeToCipherSize(l, p) < PlainSizeToCipherSize(l, q)
  {
    if p > 0 {
      var kp, rp := Parts(p, l.plainBS);
      var kq, rq := Parts(q, l.plainBS);
      PlainSizeParts(l, kp, rp);
      PlainSizeParts(l, kq, rq);
      if kp > kq { MulMono(kq + 1, kp, l.plainBS); }
      MulMono(kp, kq, l.overhead);
      Distribute(kp, l.plainBS, l.overhead);
      Distribute(kq, l.plainBS, l.overhead);
    }
  }

  /** The length of the last ciphertext block of a file longer than its header. */
  function LastBlockLen(l: Layout, cipherSize: nat): nat
    requires Usable(l) && cipherSize > HEADER_LEN
  {
    (cipherSize - HEADER_LEN - 1) % l.CipherBS() + 1
  }

  /** No plaintext: exactly the files that end inside their header or hold nothing but overhead. */
  lemma NoPlaintextExactly(l: Layout, cipherSize: nat)
    requires Usable(l)
    ensures CipherSizeToPlainSize(l, cipherSize) == 0 <==>
      cipherSize <= HEADER_LEN
      || cipherSize - HEADER_LEN <= l.overhead * ((cipherSize - HEADER_LEN - 1) / l.CipherBS() + 1)
    ensures cipherSize <= HEADER_LEN ==> CipherSizeToPlainSizeU64(l, cipherSize) == 0
  {
    if cipherSize > HEADER_LEN {
      assert CipherOffToBlockNo(l, cipherSize - 1) == (cipherSize - HEADER_LEN - 1) / l.CipherBS();
    }
  }

  /** Decrypting and encrypting a size is the identity exactly when the file is empty, or its
      last block is longer than the per-block overhead. */
  lemma CipherPlainCipher(l: Layout, cipherSize: nat)
    requires Usable(l)
    ensures PlainSizeToCipherSize(l, CipherSizeToPlainSize(l, cipherSize)) == cipherSize
      <==> cipherSize == 0 || (cipherSize > HEADER_LEN && LastBlockLen(l, cipherSize) > l.overhead)
  {
    if cipherSize > HEADER_LEN {
      var k, r := Parts(cipherSize - HEADER_LEN, l.CipherBS());
      CipherSizeParts(l, k, r);
      assert LastBlockLen(l, cipherSize) == r by {
        ModUnique(cipherSize - HEADER_LEN - 1, l.CipherBS(), k, r - 1);
      }
      if r > l.overhead {
        PlainSizeParts(l, k, r - l.overhead);
      } else {
        ShortLastBlock(l, k, r);
      }
    }
  }

  lemma ModUnique(x: nat, d: nat, q: nat, r: nat)
    requires d > 0 && x == q * d + r && r < d
    ensures x % d == r
  {
    DivUnique(x, d, q);
    assert x == (x / d) * d + x % d;
  }

  /** A last block no longer than the overhead holds no plaintext, so it is lost. */
  lemma ShortLastBlock(l: Layout, k: nat, r: nat)
    requires Usable(l) && 1 <= r <= l.overhead
    ensures var c := HEADER_LEN + k * l.CipherBS() + r; PlainSizeToCipherSize(l, CipherSizeToPlainSize(l, c)) < c
  {
    var c := HEADER_LEN + k * l.CipherBS() + r;
    CipherSizeParts(l, k, r);
    var p := CipherSizeToPlainSize(l, c);
    if p > 0 {
      var k', r' := Parts(p, l.plainBS);
      PlainSizeParts(l, k', r');
      assert k' < k by {
        if k' >= k { MulMono(k, k', l.plainBS); }
      }
      FewerBlocks(l, k', k);
    }
  }

  lemma FewerBlocks(l: Layout, k': nat, k: nat)
    requires k' < k
    ensures k' * l.CipherBS() - k' * l.plainBS + l.overhead <= k * l.CipherBS() - k * l.plainBS
  {
    MulMono(k' + 1, k, l.overhead);
    Distribute(k', l.plainBS, l.overhead);
    Distribute(k, l.plainBS, l.overhead);
    Distribute(l.overhead, k', 1);
  }

  // -------------------------------------------------------- 64-bit arithmetic

  function U64(x: int): nat {
    x % UINT64
  }

  /** `CipherSizeToPlainSize` with every operation on unsigned 64-bit integers. */
  function CipherSizeToPlainSizeU64(l: Layout, cipherSize: nat): nat
    requires Usable(l)
  {
    if cipherSize == 0 || cipherSize <= HEADER_LEN then 0
    else
      SubtractOverheadU64(l, cipherSize, U64(U64(cipherSize - 1) - HEADER_LEN) / l.CipherBS())
  }

  function SubtractOverheadU64(l: Layout, cipherSize: nat, blockNo: nat): nat {
    var blockCount := U64(blockNo + 1);
    var overhead := U64(U64(l.overhead * blockCount) + HEADER_LEN);
    if overhead > cipherSize then 0 else U64(cipherSize - overhead)
  }

  function PlainSizeToCipherSizeU64(l: Layout, plainSize: nat): nat
    requires Usable(l)
  {
    if plainSize == 0 then 0
    else
      var blockNo := U64(plainSize - 1) / l.plainBS;
      var blockCount := U64(blockNo + 1);
      var overhead := U64(U64(l.overhead * blockCount) + HEADER_LEN);
      U64(plainSize + overhead)
  }

  lemma Fits(x: int)
    ensures 0 <= U64(x) < UINT64
    ensures 0 <= x < UINT64 ==> U64(x) == x
  {
  }

  /** The header and the overhead of all blocks, before any wrap-around. */
  function TotalOverhead(l: Layout, cipherSize: nat): nat
    requires Usable(l) && cipherSize > HEADER_LEN
  {
    l.overhead * (CipherOffToBlockNo(l, cipherSize - 1) + 1) + HEADER_LEN
  }

  /** The 64-bit result is the mathematical one exactly when the total overhead fits into 64 bits,
      or still exceeds the size after wrapping around. The latter cannot happen for an overhead
      of up to half the 64-bit range. */
  lemma CipherSizeNoWrap(l: Layout, cipherSize: nat)
    requires Usable(l) && cipherSize < UINT64
    ensures cipherSize <= HEADER_LEN ==> CipherSizeToPlainSizeU64(l, cipherSize) == CipherSizeToPlainSize(l, cipherSize)
    ensures cipherSize > HEADER_LEN ==>
      var o := TotalOverhead(l, cipherSize);
      && (CipherSizeToPlainSizeU64(l, cipherSize) == CipherSizeToPlainSize(l, cipherSize)
          <==> o < UINT64 || U64(o) >= cipherSize)
      && (2 * l.overhead <= UINT64 ==>
            (CipherSizeToPlainSizeU64(l, cipherSize) == CipherSizeToPlainSize(l, cipherSize) <==> o < UINT64))
  {
    if cipherSize > HEADER_LEN {
      var k, o := CipherOffToBlockNo(l, cipherSize - 1), TotalOverhead(l, cipherSize);
      assert k + 1 <= cipherSize && o <= cipherSize + l.overhead by {
        var k', r := Parts(cipherSize - HEADER_LEN, l.CipherBS());
        OverheadBound(l, cipherSize, k', r);
      }
      Fits(cipherSize - 1);
      Fits(cipherSize - 1 - HEADER_LEN);
      SubtractWraps(l, cipherSize, k, o);
    }
  }

  /** Reducing before adding makes no difference. */
  lemma ReduceAdd(x: nat, y: nat)
    ensures U64(U64(x) + y) == U64(x + y)
  {
    var q := x / UINT64;
    assert x + y == U64(x) + y + q * UINT64;
    ModShift(U64(x) + y, q);
  }

  lemma {:induction false} ModShift(x: nat, q: nat)
    ensures U64(x + q * UINT64) == U64(x)
    decreases q
  {
    if q > 0 {
      ModShift(x, q - 1);
      assert x + q * UINT64 == x + (q - 1) * UINT64 + UINT64;
    }
  }

  lemma SubtractIs(l: Layout, cipherSize: nat, k: nat, o: nat)
    requires o == l.overhead * (k + 1) + HEADER_LEN && k + 1 < UINT64 && cipherSize < UINT64
    ensures SubtractOverheadU64(l, cipherSize, k) == if U64(o) > cipherSize then 0 else cipherSize - U64(o)
  {
    Fits(k + 1);
    ReduceAdd(l.overhead * (k + 1), HEADER_LEN);
    Fits(o);
    Fits(cipherSize - U64(o));
  }

  lemma WrapsOnce(x: nat)
    requires UINT64 <= x < 2 * UINT64
    ensures U64(x) == x - UINT64
  {
    ModShift(x - UINT64, 1);
    Fits(x - UINT64);
  }

  lemma SubtractWraps(l: Layout, cipherSize: nat, k: nat, o: nat)
    requires o == l.overhead * (k + 1) + HEADER_LEN && k + 1 < UINT64 && cipherSize < UINT64
    requires o <= cipherSize + l.overhead
    ensures var u := SubtractOverheadU64(l, cipherSize, k); var plain := if o > cipherSize then 0 else cipherSize - o;
      && (u == plain <==> o < UINT64 || U64(o) >= cipherSize)
      && (2 * l.overhead <= UINT64 && o >= UINT64 ==> U64(o) < cipherSize)
  {
    SubtractIs(l, cipherSize, k, o);
    Fits(o);
    if 2 * l.overhead <= UINT64 && o >= UINT64 { WrapsOnce(o); }
  }

  lemma OverheadBound(l: Layout, c: nat, k: nat, r: nat)
    requires Usable(l) && r >= 1 && c == HEADER_LEN + k * l.CipherBS() + r
    ensures l.overhead * (k + 1) + HEADER_LEN <= c + l.overhead && k + 1 <= c
  {
    Distribute(k, l.plainBS, l.overhead);
    Distribute(l.overhead, k, 1);
    MulMono(1, l.plainBS, k);
  }

  /** The 64-bit result is the mathematical one exactly when that one fits into 64 bits. */
  lemma PlainSizeNoWrap(l: Layout, plainSize: nat)
    requires Usable(l) && plainSize < UINT64
    ensures PlainSizeToCipherSizeU64(l, plainSize) == PlainSizeToCipherSize(l, plainSize)
      <==> PlainSizeToCipherSize(l, plainSize) < UINT64
  {
    if plainSize > 0 {
      var k, r := Parts(plainSize, l.plainBS);
      MulMono(1, l.plainBS, k);
      Fits(plainSize - 1);
      Fits(k + 1);
      var o := l.overhead * (k + 1);
      Fits(o);
      Fits(o + HEADER_LEN);
      Fits(plainSize + (o + HEADER_LEN));
      Fits(plainSize + U64(U64(l.overhead * U64(k + 1)) + HEADER_LEN));
      assert PlainSizeToCipherSize(l, plainSize) == plainSize + (o + HEADER_LEN);
    }
  }
}
