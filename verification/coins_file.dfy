/** The compact serialisation of coin records and of undo records. */
module CoinFiles {
  import opened Wrappers
  import opened Coins
  import opened Amounts
  import opened Bits

  // ------------------------------------------------------------ the unspentness bit mask

  predicate Avail(vout: seq<TxOut>, i: nat) { i < |vout| && !vout[i].IsNull() }

  /** The first `i` flags of the eight outputs from position `o` on. */
  function FlagBits(vout: seq<TxOut>, o: nat, i: nat): bv8
    requires i <= 8
  {
    if i == 0 then 0 else FlagBits(vout, o, i - 1) | (if Avail(vout, o + i - 1) then Mask(i - 1) else 0)
  }

  /** Byte `b` of the mask; outputs 0 and 1 have no place in it. */
  function FlagByte(vout: seq<TxOut>, b: nat): bv8 { FlagBits(vout, 2 + 8 * b, 8) }

  lemma {:induction false} FlagTest(vout: seq<TxOut>, o: nat, i: nat, p: nat)
    requires i <= 8 && p < 8
    ensures FlagBits(vout, o, i) & Mask(p) != 0 <==> p < i && Avail(vout, o + p)
  {
    if i > 0 {
      FlagTest(vout, o, i - 1, p);
      SetMask(FlagBits(vout, o, i - 1), i - 1, p);
    }
  }

  lemma {:induction false} NoFlag(x: bv8)
    requires forall p: nat :: p < 8 ==> x & Mask(p) == 0
    ensures x == 0
  {
    assert Mask(0) == 1 && Mask(1) == 2 && Mask(2) == 4 && Mask(3) == 8;
    assert Mask(4) == 16 && Mask(5) == 32 && Mask(6) == 64 && Mask(7) == 128;
  }

  predicate NoneIn(vout: seq<TxOut>, lo: nat, hi: nat) { forall q: nat :: lo <= q < hi ==> !Avail(vout, q) }

  lemma {:induction false} FlagByteZero(vout: seq<TxOut>, b: nat)
    ensures FlagByte(vout, b) == 0 <==> NoneIn(vout, 2 + 8 * b, 10 + 8 * b)
  {
    var o := 2 + 8 * b;
    hide Avail; hide FlagBits;
    forall p: nat | p < 8
      ensures FlagBits(vout, o, 8) & Mask(p) != 0 <==> Avail(vout, o + p)
    {
      FlagTest(vout, o, 8, p);
    }
    if NoneIn(vout, o, o + 8) {
      NoFlag(FlagByte(vout, b));
    } else {
      var q: nat :| o <= q < o + 8 && Avail(vout, q);
      assert FlagBits(vout, o, 8) & Mask(q - o) != 0 <==> Avail(vout, o + (q - o));
    }
  }

  /** How many of the first `n` mask bytes are not zero, and how many are left when trailing zero
      bytes are dropped. */
  function Nonzero(vout: seq<TxOut>, n: nat): nat {
    if n == 0 then 0 else Nonzero(vout, n - 1) + if FlagByte(vout, n - 1) != 0 then 1 else 0
  }

  function Used(vout: seq<TxOut>, n: nat): (r: nat)
    ensures r <= n && (r > 0 ==> FlagByte(vout, r - 1) != 0) && forall b :: r <= b < n ==> FlagByte(vout, b) == 0
    ensures Nonzero(vout, r) == Nonzero(vout, n)
  {
    if n == 0 then 0 else if FlagByte(vout, n - 1) != 0 then n else Used(vout, n - 1)
  }

  /** The number of mask bytes a vector of outputs reaches into. */
  function Span(vout: seq<TxOut>): nat { if |vout| <= 2 then 0 else (|vout| + 5) / 8 }

  method CalcMaskSize(vout: seq<TxOut>) returns (nBytes: nat, nNonzeroBytes: nat)
    ensures nBytes == Used(vout, Span(vout)) && nNonzeroBytes == Nonzero(vout, Span(vout))
  {
    hide FlagByte;
    var nLastUsedByte := 0;
    nNonzeroBytes := 0;
    var b := 0;
    while 2 + b * 8 < |vout|
      invariant 0 <= b <= Span(vout)
      invariant nLastUsedByte == Used(vout, b) && nNonzeroBytes == Nonzero(vout, b)
    {
      var fZero := true;
      var i := 0;
      while i < 8 && 2 + b * 8 + i < |vout|
        invariant 0 <= i <= 8
        invariant fZero <==> NoneIn(vout, 2 + 8 * b, 2 + 8 * b + i)
      {
        if !vout[2 + b * 8 + i].IsNull() {
          assert Avail(vout, 2 + 8 * b + i);
          fZero := false;
        }
        i := i + 1;
      }
      assert fZero <==> NoneIn(vout, 2 + 8 * b, 10 + 8 * b);
      FlagByteZero(vout, b);
      if !fZero {
        nLastUsedByte := b + 1;
        nNonzeroBytes := nNonzeroBytes + 1;
      }
      b := b + 1;
    }
    nBytes := nLastUsedByte;
  }

  lemma {:induction false} NonzeroGrows(vout: seq<TxOut>, a: nat, b: nat)
    requires a <= b
    ensures Nonzero(vout, a) <= Nonzero(vout, b)
    decreases b
  {
    if a < b { NonzeroGrows(vout, a, b - 1); }
  }

  /** The reader's stopping rule: all non-zero bytes have been seen exactly when the bytes written
      have been read. */
  lemma {:induction false} StopsThere(vout: seq<TxOut>, n: nat, j: nat)
    requires j <= Used(vout, n)
    ensures Nonzero(vout, j) == Nonzero(vout, n) <==> j == Used(vout, n)
  {
    var u := Used(vout, n);
    if j < u { NonzeroGrows(vout, j, u - 1); }
  }

  /** Every unspent output beyond the first two has its flag in the bytes written. */
  lemma {:induction false} MaskCovers(vout: seq<TxOut>, i: nat)
    requires Avail(vout, i)
    ensures i < 2 + 8 * Used(vout, Span(vout))
  {
    if i >= 2 {
      var b := (i - 2) / 8;
      assert 2 + 8 * b <= i < 10 + 8 * b && b < Span(vout);
      FlagByteZero(vout, b);
    }
  }

  // ------------------------------------------------------------ the format

  /** Amounts in range and spent outputs blank, as in every record of the coin state. */
  predicate Storable(vout: seq<TxOut>) {
    forall i :: 0 <= i < |vout| ==> if vout[i].IsNull() then vout[i] == NULL_OUT else 0 <= vout[i].nValue <= MAX_MONEY
  }

  function OutTokens(o: TxOut): seq<Token>
    requires o.nValue >= 0
  {
    VarInt(Compress(o.nValue)) + [Scripted(o.scriptPubKey)]
  }

  function Outs(vout: seq<TxOut>, i: nat): seq<Token>
    requires Storable(vout)
    decreases |vout| - i
  {
    if i >= |vout| then [] else (if vout[i].IsNull() then [] else OutTokens(vout[i])) + Outs(vout, i + 1)
  }

  function FlagTokens(vout: seq<TxOut>, b: nat, n: nat): seq<Token>
    requires b <= n
    decreases n - b
  {
    if b == n then [] else [Flags(FlagByte(vout, b))] + FlagTokens(vout, b + 1, n)
  }

  predicate HasOutput(vout: seq<TxOut>) { Avail(vout, 0) || Avail(vout, 1) || Nonzero(vout, Span(vout)) > 0 }

  function Code(c: CoinRecord): nat
    requires HasOutput(c.vout)
  {
    var first, second := Avail(c.vout, 0), Avail(c.vout, 1);
    8 * (Nonzero(c.vout, Span(c.vout)) - (if first || second then 0 else 1))
    + (if c.fCoinBase then 1 else 0) + (if first then 2 else 0) + (if second then 4 else 0)
  }

  function Body(c: CoinRecord): seq<Token>
    requires Storable(c.vout)
  {
    FlagTokens(c.vout, 0, Used(c.vout, Span(c.vout))) + (Outs(c.vout, 0) + VarInt(c.nHeight))
  }

  function Encoding(c: CoinRecord): seq<Token>
    requires Storable(c.vout) && HasOutput(c.vout)
  {
    VarInt(StoredInt(c.nVersion)) + (VarInt(Code(c)) + Body(c))
  }

  /** The assertion in Serialize holds exactly for records with something unspent. */
  lemma {:induction false} HasOutputIff(c: CoinRecord)
    ensures HasOutput(c.vout) <==> !c.IsPruned()
  {
    if Nonzero(c.vout, Span(c.vout)) > 0 {
      var b := FirstNonzero(c.vout, Span(c.vout));
      FlagByteZero(c.vout, b);
    }
    if !c.IsPruned() {
      var i :| 0 <= i < |c.vout| && !c.vout[i].IsNull();
      MaskCovers(c.vout, i);
    }
  }

  lemma {:induction false} FirstNonzero(vout: seq<TxOut>, n: nat) returns (b: nat)
    requires Nonzero(vout, n) > 0
    ensures b < n && FlagByte(vout, b) != 0
  {
    if FlagByte(vout, n - 1) != 0 { b := n - 1; } else { b := FirstNonzero(vout, n - 1); }
  }

  // ------------------------------------------------------------ writing

  method WriteFlagByte(vout: seq<TxOut>, b: nat) returns (chAvail: bv8)
    ensures chAvail == FlagByte(vout, b)
  {
    hide Mask; hide FlagBits;
    NoFlags(vout, 2 + 8 * b);
    chAvail := 0;
    var i := 0;
    while i < 8 && 2 + b * 8 + i < |vout|
      invariant 0 <= i <= 8 && chAvail == FlagBits(vout, 2 + 8 * b, i)
    {
      NextFlag(vout, 2 + 8 * b, i);
      if !vout[2 + b * 8 + i].IsNull() { chAvail := chAvail | Mask(i); }
      i := i + 1;
    }
    NoMoreFlags(vout, 2 + 8 * b, i, 8);
  }

  lemma {:induction false} NoFlags(vout: seq<TxOut>, o: nat)
    ensures FlagBits(vout, o, 0) == 0
  {
  }

  lemma {:induction false} NextFlag(vout: seq<TxOut>, o: nat, i: nat)
    requires i < 8
    ensures FlagBits(vout, o, i + 1) ==
              if Avail(vout, o + i) then FlagBits(vout, o, i) | Mask(i) else FlagBits(vout, o, i)
  {
    hide Mask;
  }

  lemma {:induction false} NoMoreFlags(vout: seq<TxOut>, o: nat, i: nat, j: nat)
    requires i <= j <= 8 && (i == j || o + i >= |vout|)
    ensures FlagBits(vout, o, i) == FlagBits(vout, o, j)
    decreases j
  {
    if i < j { NoMoreFlags(vout, o, i, j - 1); }
  }

  method WriteFlags(vout: seq<TxOut>, nMaskSize: nat) returns (flags: seq<Token>)
    ensures flags == FlagTokens(vout, 0, nMaskSize)
  {
    hide FlagByte;
    flags := [];
    for b := 0 to nMaskSize
      invariant flags + FlagTokens(vout, b, nMaskSize) == FlagTokens(vout, 0, nMaskSize)
    {
      var chAvail := WriteFlagByte(vout, b);
      flags := flags + [Flags(chAvail)];
    }
  }

  method WriteOuts(vout: seq<TxOut>) returns (outs: seq<Token>)
    requires Storable(vout)
    ensures outs == Outs(vout, 0)
  {
    hide VarInt; hide Compress;
    outs := [];
    for i := 0 to |vout|
      invariant outs + Outs(vout, i) == Outs(vout, 0)
    {
      if !vout[i].IsNull() {
        var amount := CompressAmount(vout[i].nValue as uint64);
        var out := WriteVar(amount as int);
        outs := outs + (out + [Scripted(vout[i].scriptPubKey)]);
      }
    }
  }

  method Serialize(c: CoinRecord) returns (s: seq<Token>)
    requires Storable(c.vout) && !c.IsPruned()
    ensures HasOutput(c.vout) && s == Encoding(c)
  {
    hide FlagTokens; hide VarInt; hide Outs; hide Storable; hide Nonzero; hide Used; hide Span;
    HasOutputIff(c);
    var vout := c.vout;
    var nMaskSize, nMaskCode := CalcMaskSize(vout);
    var fFirst, fSecond := |vout| > 0 && !vout[0].IsNull(), |vout| > 1 && !vout[1].IsNull();
    var nCode := 8 * (nMaskCode - (if fFirst || fSecond then 0 else 1))
      + (if c.fCoinBase then 1 else 0) + (if fFirst then 2 else 0) + (if fSecond then 4 else 0);
    assert nCode == Code(c);
    var version := WriteVar(c.nVersion);
    var code := WriteVar(nCode);
    var flags := WriteFlags(vout, nMaskSize);
    var outs := WriteOuts(vout);
    var height := WriteVar(c.nHeight);
    s := version + (code + (flags + (outs + height)));
  }

  function Size(s: seq<Token>, scriptSize: Script -> nat): nat {
    if s == [] then 0 else (if s[0].Scripted? then scriptSize(s[0].script) else 1) + Size(s[1..], scriptSize)
  }

  lemma {:induction false} SizeSum(a: seq<Token>, b: seq<Token>, f: Script -> nat)
    ensures Size(a + b, f) == Size(a, f) + Size(b, f)
  {
    if a == [] {
      assert a + b == b;
    } else {
      assert (a + b)[1..] == a[1..] + b;
      SizeSum(a[1..], b, f);
    }
  }

  lemma {:induction false} SizeBytes(s: seq<Token>, f: Script -> nat)
    requires forall i :: 0 <= i < |s| ==> !s[i].Scripted?
    ensures Size(s, f) == |s|
  {
    if s != [] { SizeBytes(s[1..], f); }
  }

  lemma {:induction false} DigitsOnly(n: nat, last: bool)
    ensures forall i :: 0 <= i < |Digits(n, last)| ==> !Digits(n, last)[i].Scripted?
    decreases n
  {
    if n > 0x7F { DigitsOnly(n / 128 - 1, false); }
  }

  lemma {:induction false} SizeVarInt(n: nat, f: Script -> nat)
    ensures Size(VarInt(n), f) == |VarInt(n)|
  {
    DigitsOnly(n, true);
    SizeBytes(VarInt(n), f);
  }

  lemma {:induction false} SizeFlags(vout: seq<TxOut>, b: nat, n: nat, f: Script -> nat)
    requires b <= n
    ensures Size(FlagTokens(vout, b, n), f) == n - b
    decreases n - b
  {
    if b < n {
      assert FlagTokens(vout, b, n)[1..] == FlagTokens(vout, b + 1, n);
      SizeFlags(vout, b + 1, n, f);
    }
  }

  lemma {:induction false} SizeOut(o: TxOut, f: Script -> nat)
    requires o.nValue >= 0
    ensures Size(OutTokens(o), f) == |VarInt(Compress(o.nValue))| + f(o.scriptPubKey)
  {
    SizeSum(VarInt(Compress(o.nValue)), [Scripted(o.scriptPubKey)], f);
    SizeVarInt(Compress(o.nValue), f);
    hide VarInt; hide Compress;
    assert Size([Scripted(o.scriptPubKey)][1..], f) == 0;
  }

  method OutsSize(vout: seq<TxOut>, f: Script -> nat) returns (n: nat)
    requires Storable(vout)
    ensures n == Size(Outs(vout, 0), f)
  {
    hide VarInt; hide Compress; hide OutTokens;
    n := 0;
    for i := 0 to |vout|
      invariant n + Size(Outs(vout, i), f) == Size(Outs(vout, 0), f)
    {
      if vout[i].IsNull() {
        assert Outs(vout, i) == Outs(vout, i + 1);
      } else {
        SizeSum(OutTokens(vout[i]), Outs(vout, i + 1), f);
        SizeOut(vout[i], f);
        var amount := CompressAmount(vout[i].nValue as uint64);
        var size := SizeOfVarInt(amount as int);
        n := n + size + f(vout[i].scriptPubKey);
      }
    }
  }

  /** The size computed beforehand is the size of what is written. */
  method GetSerializeSize(c: CoinRecord, f: Script -> nat) returns (nSize: nat)
    requires Storable(c.vout) && !c.IsPruned()
    ensures HasOutput(c.vout) && nSize == Size(Encoding(c), f)
  {
    hide FlagTokens; hide VarInt; hide Outs; hide Storable; hide Nonzero; hide Used; hide Span; hide Size;
    HasOutputIff(c);
    var vout := c.vout;
    var nMaskSize, nMaskCode := CalcMaskSize(vout);
    var fFirst, fSecond := |vout| > 0 && !vout[0].IsNull(), |vout| > 1 && !vout[1].IsNull();
    var nCode := 8 * (nMaskCode - (if fFirst || fSecond then 0 else 1))
      + (if c.fCoinBase then 1 else 0) + (if fFirst then 2 else 0) + (if fSecond then 4 else 0);
    assert nCode == Code(c);
    nSize := SizeOfVarInt(c.nVersion);
    var part := SizeOfVarInt(nCode);
    nSize := nSize + part + nMaskSize;
    part := OutsSize(vout, f);
    nSize := nSize + part;
    part := SizeOfVarInt(c.nHeight);
    nSize := nSize + part;
    SizeParts(c, f);
  }

  lemma {:induction false} SizeParts(c: CoinRecord, f: Script -> nat)
    requires Storable(c.vout) && HasOutput(c.vout)
    ensures Size(Encoding(c), f) == |VarInt(StoredInt(c.nVersion))| + |VarInt(Code(c))| + Used(c.vout, Span(c.vout)) +
              Size(Outs(c.vout, 0), f) + |VarInt(c.nHeight)|
  {
    hide FlagTokens; hide VarInt; hide Outs; hide Storable; hide Nonzero; hide Used; hide Span; hide Size; hide Code;
    hide HasOutput;
    var flags := FlagTokens(c.vout, 0, Used(c.vout, Span(c.vout)));
    SizeSum(VarInt(StoredInt(c.nVersion)), VarInt(Code(c)) + Body(c), f);
    SizeSum(VarInt(Code(c)), Body(c), f);
    SizeSum(flags, Outs(c.vout, 0) + VarInt(c.nHeight), f);
    SizeSum(Outs(c.vout, 0), VarInt(c.nHeight), f);
    SizeVarInt(StoredInt(c.nVersion), f);
    SizeVarInt(Code(c), f);
    SizeVarInt(c.nHeight, f);
    SizeFlags(c.vout, 0, Used(c.vout, Span(c.vout)), f);
  }

  // ------------------------------------------------------------ reading

  /** The flags of the first outputs. */
  ghost predicate FlagsOf(vAvail: seq<bool>, vout: seq<TxOut>) {
    forall i :: 0 <= i < |vAvail| ==> (vAvail[i] <==> Avail(vout, i))
  }

  method ReadFlagByte(chAvail: bv8, before: seq<bool>, ghost vout: seq<TxOut>, ghost b: nat) returns (vAvail: seq<bool>)
    ensures |vAvail| == |before| + 8
    ensures chAvail == FlagByte(vout, b) && |before| == 2 + 8 * b && FlagsOf(before, vout) ==> FlagsOf(vAvail, vout)
  {
    hide Avail; hide FlagBits;
    vAvail := before;
    for p := 0 to 8
      invariant |vAvail| == |before| + p
      invariant chAvail == FlagByte(vout, b) && |before| == 2 + 8 * b && FlagsOf(before, vout) ==> FlagsOf(vAvail, vout)
    {
      FlagTest(vout, 2 + 8 * b, 8, p);
      vAvail := vAvail + [chAvail & Mask(p) != 0];
    }
  }

  /** Reads mask bytes until `maskCode` non-zero ones have been seen. */
  method ReadFlags(s: seq<Token>, maskCode: nat, firstTwo: seq<bool>, ghost vout: seq<TxOut>, ghost tail: seq<Token>)
    returns (ok: bool, vAvail: seq<bool>, rest: seq<Token>)
    requires |firstTwo| == 2
    ensures s == FlagTokens(vout, 0, Used(vout, Span(vout))) + tail && maskCode == Nonzero(vout, Span(vout)) &&
              FlagsOf(firstTwo, vout) ==>
              ok && rest == tail && |vAvail| == 2 + 8 * Used(vout, Span(vout)) && FlagsOf(vAvail, vout)
  {
    hide FlagByte; hide Span; hide FlagsOf;
    ghost var n, used := Span(vout), Used(vout, Span(vout));
    ghost var good := s == FlagTokens(vout, 0, used) + tail && maskCode == Nonzero(vout, n) && FlagsOf(firstTwo, vout);
    vAvail, rest := firstTwo, s;
    var nMaskCode := maskCode;
    ghost var j := 0;
    while nMaskCode > 0
      invariant good ==>
                j <= used && rest == FlagTokens(vout, j, used) + tail &&
                nMaskCode == Nonzero(vout, n) - Nonzero(vout, j)
      invariant good ==> |vAvail| == 2 + 8 * j && FlagsOf(vAvail, vout)
      decreases rest
    {
      if good {
        StopsThere(vout, n, j);
        assert rest[1..] == FlagTokens(vout, j + 1, used) + tail;
      }
      if rest == [] || !rest[0].Flags? { return false, vAvail, rest; }
      var chAvail := rest[0].b;
      vAvail := ReadFlagByte(chAvail, vAvail, vout, j);
      rest := rest[1..];
      if chAvail != 0 { nMaskCode := nMaskCode - 1; }
      j := j + 1;
    }
    if good { StopsThere(vout, n, j); }
    ok := true;
  }

  /** A 64-bit number as a signed amount. */
  function ToInt64(x: uint64): int { if x < 0x8000_0000_0000_0000 then x as int else x as int - TWO64 }

  method ReadOut(s: seq<Token>, ghost o: TxOut, ghost tail: seq<Token>)
    returns (ok: bool, txout: TxOut, rest: seq<Token>)
    ensures 0 <= o.nValue <= MAX_MONEY && s == OutTokens(o) + tail ==> ok && txout == o && rest == tail
  {
    hide VarInt; hide Compress; hide Decompress;
    if 0 <= o.nValue <= MAX_MONEY && s == OutTokens(o) + tail {
      ReadVarInt(Compress(o.nValue), [Scripted(o.scriptPubKey)] + tail);
      assert s == VarInt(Compress(o.nValue)) + ([Scripted(o.scriptPubKey)] + tail);
      DecompressCompress(o.nValue);
      CompressFits(o.nValue);
    }
    var n;
    ok, n, rest := ReadVarIntFrom(s);
    if !ok || rest == [] || !rest[0].Scripted? { return false, NULL_OUT, rest; }
    var amount := DecompressAmount((n % TWO64) as uint64);
    txout := TxOut(ToInt64(amount), rest[0].script);
    rest := rest[1..];
  }

  /** What the outputs look like after reading: as many as there are flags, blank where spent. */
  ghost predicate ReadBack(vout: seq<TxOut>, r: seq<TxOut>, n: nat) {
    n <= |r| && forall i :: 0 <= i < n ==> r[i] == if Avail(vout, i) then vout[i] else NULL_OUT
  }

  method ReadOuts(s: seq<Token>, vAvail: seq<bool>, ghost vout: seq<TxOut>, ghost tail: seq<Token>)
    returns (ok: bool, r: seq<TxOut>, rest: seq<Token>)
    ensures Storable(vout) && s == Outs(vout, 0) + tail && FlagsOf(vAvail, vout) &&
              (forall i :: |vAvail| <= i < |vout| ==> vout[i].IsNull()) ==>
              ok && rest == tail && |r| == |vAvail| && ReadBack(vout, r, |vAvail|)
  {
    hide OutTokens; hide Outs; hide Storable;
    ghost var good := Storable(vout) && s == Outs(vout, 0) + tail && FlagsOf(vAvail, vout) &&
      forall i :: |vAvail| <= i < |vout| ==> vout[i].IsNull();
    r := seq(|vAvail|, _ => NULL_OUT);
    rest := s;
    for i := 0 to |vAvail|
      invariant |r| == |vAvail| && forall k :: i <= k < |r| ==> r[k] == NULL_OUT
      invariant good ==> rest == Outs(vout, i) + tail && ReadBack(vout, r, i)
    {
      if good { OutsStep(vout, i); }
      if vAvail[i] {
        ghost var o := if good then vout[i] else NULL_OUT;
        ghost var more := if good then Outs(vout, i + 1) + tail else [];
        if good { assert rest == OutTokens(o) + more; }
        var txout;
        ok, txout, rest := ReadOut(rest, o, more);
        if !ok { return; }
        r := r[i := txout];
      }
    }
    if good { NoMoreOuts(vout, |vAvail|); }
    ok := true;
  }

  lemma {:induction false} OutsStep(vout: seq<TxOut>, i: nat)
    requires Storable(vout)
    ensures if Avail(vout, i)
            then 0 <= vout[i].nValue <= MAX_MONEY && Outs(vout, i) == OutTokens(vout[i]) + Outs(vout, i + 1)
            else Outs(vout, i) == Outs(vout, i + 1)
  {
  }

  lemma {:induction false} NoMoreOuts(vout: seq<TxOut>, i: nat)
    requires Storable(vout) && forall k :: i <= k < |vout| ==> vout[k].IsNull()
    ensures Outs(vout, i) == []
    decreases |vout| - i
  {
    if i < |vout| { NoMoreOuts(vout, i + 1); }
  }

  lemma {:induction false} CodeParts(c: CoinRecord)
    requires HasOutput(c.vout)
    ensures var n, first, second := Code(c), Avail(c.vout, 0), Avail(c.vout, 1);
            && (n % 2 == 1 <==> c.fCoinBase) && (n / 2 % 2 == 1 <==> first) && (n / 4 % 2 == 1 <==> second)
            && n / 8 + (if n / 2 % 4 != 0 then 0 else 1) == Nonzero(c.vout, Span(c.vout))
  {
    hide Avail; hide Nonzero; hide Span;
    var first, second := Avail(c.vout, 0), Avail(c.vout, 1);
    var q := Nonzero(c.vout, Span(c.vout)) - (if first || second then 0 else 1);
    var a, b, d := if c.fCoinBase then 1 else 0, if first then 1 else 0, if second then 1 else 0;
    assert Code(c) == 8 * q + 4 * d + 2 * b + a;
  }

  /** Blank outputs appended and dropped again make no difference. */
  lemma {:induction false} TrimBack(vout: seq<TxOut>, r: seq<TxOut>)
    requires Storable(vout) && |r| == 2 + 8 * Used(vout, Span(vout)) && ReadBack(vout, r, |r|)
    ensures Trim(r) == Trim(vout)
  {
    var t := Trim(vout);
    if t != [] {
      assert Avail(vout, |t| - 1);
      MaskCovers(vout, |t| - 1);
    }
    hide Used; hide Span; hide Trim;
    assert t == r[..|t|];
    TrimUnique(r, t);
  }

  /** Reading back what was written gives the record again, without trailing spent outputs; a stream
      that ends early or is out of step fails. */
  method Unserialize(s: seq<Token>, ghost c: CoinRecord) returns (ok: bool, r: CoinRecord, rest: seq<Token>)
    ensures Storable(c.vout) && !c.IsPruned() && HasOutput(c.vout) && s == Encoding(c) ==>
              ok && r == StoredRecord(c.(vout := Trim(c.vout))) && rest == []
  {
    hide FlagTokens; hide VarInt; hide Outs; hide Storable; hide Nonzero; hide Used; hide Span; hide Trim; hide Code;
    hide Avail; hide HasOutput;
    ghost var good := Storable(c.vout) && HasOutput(c.vout) && s == Encoding(c);
    ghost var used := Used(c.vout, Span(c.vout));
    ghost var tail := if Storable(c.vout) then Outs(c.vout, 0) + VarInt(c.nHeight) else [];
    if good {
      ReadVarInt(StoredInt(c.nVersion), VarInt(Code(c)) + Body(c));
      ReadVarInt(Code(c), Body(c));
      CodeParts(c);
    }
    r := NO_COINS;
    var nVersion, nCode, nHeight;
    ok, nVersion, rest := ReadVarIntFrom(s);
    if !ok { return; }
    ok, nCode, rest := ReadVarIntFrom(rest);
    if !ok { return; }
    var fCoinBase := nCode % 2 == 1;
    var firstTwo := [nCode / 2 % 2 == 1, nCode / 4 % 2 == 1];
    var nMaskCode := nCode / 8 + if nCode / 2 % 4 != 0 then 0 else 1;
    var vAvail;
    ok, vAvail, rest := ReadFlags(rest, nMaskCode, firstTwo, c.vout, tail);
    if !ok { return; }
    if good { Beyond(c.vout); }
    var vout;
    ok, vout, rest := ReadOuts(rest, vAvail, c.vout, VarInt(c.nHeight));
    if !ok { return; }
    if good {
      TrimBack(c.vout, vout);
      ReadVarInt(c.nHeight, []);
      assert VarInt(c.nHeight) + [] == VarInt(c.nHeight);
    }
    ok, nHeight, rest := ReadVarIntFrom(rest);
    if !ok { return; }
    r := Cleanup(CoinRecord(fCoinBase, vout, nHeight, nVersion));
  }

  lemma {:induction false} Beyond(vout: seq<TxOut>)
    ensures forall i :: 2 + 8 * Used(vout, Span(vout)) <= i < |vout| ==> vout[i].IsNull()
  {
    hide Used; hide Span;
    forall i | 2 + 8 * Used(vout, Span(vout)) <= i < |vout| ensures vout[i].IsNull() {
      if !vout[i].IsNull() { MaskCovers(vout, i); }
    }
  }

  /** What the database makes of a record of the coin state: the round trip is exact if and only if the
      version is not negative. */
  method RoundTrip(c: CoinRecord) returns (r: CoinRecord)
    requires c.Canonical() && Storable(c.vout) && !c.IsPruned()
    ensures r == StoredRecord(c) && (r == c <==> c.nVersion >= 0)
  {
    hide Storable;
    var s := Serialize(c);
    var ok, rest;
    ok, r, rest := Unserialize(s, c);
  }

  // ------------------------------------------------------------ undo records

  function UndoEncoding(u: TxInUndo): seq<Token>
    requires u.txout.nValue >= 0
  {
    VarInt(u.nHeight * 2 + if u.fCoinBase then 1 else 0) +
      ((if u.nHeight > 0 then VarInt(StoredInt(u.nVersion)) else []) + OutTokens(u.txout))
  }

  method SerializeUndo(u: TxInUndo) returns (s: seq<Token>)
    requires 0 <= u.txout.nValue <= MAX_MONEY
    ensures s == UndoEncoding(u)
  {
    hide VarInt; hide Compress;
    s := WriteVar(u.nHeight * 2 + if u.fCoinBase then 1 else 0);
    var version: seq<Token> := [];
    if u.nHeight > 0 { version := WriteVar(u.nVersion); }
    var amount := CompressAmount(u.txout.nValue as uint64);
    var out := WriteVar(amount as int);
    s := s + (version + (out + [Scripted(u.txout.scriptPubKey)]));
  }

  /** What the reader meets in an undo record, number by number. */
  lemma {:induction false} UndoParts(u: TxInUndo)
    requires u.txout.nValue >= 0
    ensures ReadVar(UndoEncoding(u), 0).Some?
    ensures var (nCode, mid) := ReadVar(UndoEncoding(u), 0).value;
            && nCode / 2 == u.nHeight && (nCode % 2 == 1 <==> u.fCoinBase)
            && (if u.nHeight > 0 then ReadVar(mid, 0) == Some((StoredInt(u.nVersion), OutTokens(u.txout) + []))
              else mid == OutTokens(u.txout) + [])
  {
    hide VarInt; hide OutTokens; hide ReadVar;
    var out := OutTokens(u.txout);
    var version := if u.nHeight > 0 then VarInt(StoredInt(u.nVersion)) else [];
    ReadVarInt(u.nHeight * 2 + if u.fCoinBase then 1 else 0, version + out);
    ReadVarInt(StoredInt(u.nVersion), out);
    assert [] + out == out && out + [] == out;
  }

  /** The version is stored only with a height, and negative ones not exactly. */
  method UnserializeUndo(s: seq<Token>, ghost u: TxInUndo) returns (ok: bool, r: TxInUndo)
    ensures 0 <= u.txout.nValue <= MAX_MONEY && s == UndoEncoding(u) ==> ok && r == StoredUndo(u)
  {
    hide UndoEncoding; hide ReadVar; hide OutTokens;
    ghost var good := 0 <= u.txout.nValue <= MAX_MONEY && s == UndoEncoding(u);
    if good { UndoParts(u); }
    r := TxInUndo(NULL_OUT, false, 0, 0);
    var nCode, rest;
    ok, nCode, rest := ReadVarIntFrom(s);
    if !ok { return; }
    var nVersion := 0;
    if nCode / 2 > 0 {
      ok, nVersion, rest := ReadVarIntFrom(rest);
      if !ok { return; }
    }
    var txout;
    ok, txout, rest := ReadOut(rest, u.txout, []);
    r := TxInUndo(txout, nCode % 2 == 1, nCode / 2, nVersion);
  }
}
