/** The compact formats at the numbers and records that the documentation and the tests give. */
module Formats {
  import opened Bits
  import opened Coins
  import opened Amounts
  import opened CoinFiles

  // ------------------------------------------------------------ numbers

  lemma {:induction false} CompressScaled(m: nat, e: nat, n: nat)
    requires m > 0 && e <= 9 && (e < 9 ==> m % 10 != 0) && n == Scale(m, e)
    ensures Compress(n) == Join(m, e)
  {
    ScaleStrip(m, e, 0);
  }

  /** The pairs of the compression tests. */
  lemma {:induction false} KnownAmounts()
    ensures Compress(0) == 0x0 && Compress(1) == 0x1 && Compress(1_000_000) == 0x7 && Compress(COIN) == 0x9
    ensures Compress(50 * COIN) == 0x32 && Compress(21_000_000 * COIN) == 0x1406f40
  {
    hide Strip;
    CompressScaled(1, 0, 1);
    CompressScaled(1, 6, 1_000_000);
    CompressScaled(1, 8, COIN);
    CompressScaled(5, 9, 50 * COIN);
    CompressScaled(2_100_000, 9, 21_000_000 * COIN);
  }

  /** The bytes of a number of up to three bytes, and so the documented sizes; */
  lemma {:induction false} ShortForms(n: nat)
    ensures n <= 127 ==> VarInt(n) == [Digit(n)]
    ensures 128 <= n <= 16511 ==> VarInt(n) == [Digit(n / 128 + 127), Digit(n % 128)]
    ensures 16512 <= n <= 2113663 ==>
              var m := n / 128 - 1; VarInt(n) == [Digit(m / 128 + 127), Digit(m % 128 + 128), Digit(n % 128)]
    ensures n > 2113663 ==> |VarInt(n)| > 3
  {
    if n > 127 {
      var m := n / 128 - 1;
      assert VarInt(n) == Digits(m, false) + [Digit(n % 128)];
      if m > 127 {
        var l := m / 128 - 1;
        assert Digits(m, false) == Digits(l, false) + [Digit(m % 128 + 128)];
        assert l > 127 ==> Digits(l, false) == Digits(l / 128 - 1, false) + [Digit(l % 128 + 128)];
      }
    }
  }

  /** two more bytes in front of a longer one; */
  lemma {:induction false} LongForms(n: nat)
    requires n > 2113663
    ensures var m := n / 128 - 1;
            var l := m / 128 - 1;
            VarInt(n) == Digits(l, false) + [Digit(m % 128 + 128), Digit(n % 128)]
  {
    var m := n / 128 - 1;
    assert VarInt(n) == Digits(m, false) + [Digit(n % 128)];
    assert Digits(m, false) == Digits(m / 128 - 1, false) + [Digit(m % 128 + 128)];
  }

  lemma {:induction false} FrontForm(l: nat)
    requires 16512 <= l <= 2113663
    ensures var m := l / 128 - 1;
            Digits(l, false) == [Digit(m / 128 + 127), Digit(m % 128 + 128), Digit(l % 128 + 128)]
  {
    var m := l / 128 - 1;
    assert Digits(l, false) == Digits(m, false) + [Digit(l % 128 + 128)];
    assert Digits(m, false) == Digits(m / 128 - 1, false) + [Digit(m % 128 + 128)];
  }

  /** and the documented examples, but for two: for 16511 the documentation lists three bytes, against its own
      table of sizes, and for 65535 the middle byte 0xFD. */
  lemma {:induction false} KnownVarInts()
    ensures VarInt(0) == [Digit(0x00)] && VarInt(1) == [Digit(0x01)] && VarInt(127) == [Digit(0x7F)]
    ensures VarInt(128) == [Digit(0x80), Digit(0x00)] && VarInt(255) == [Digit(0x80), Digit(0x7F)]
    ensures VarInt(256) == [Digit(0x81), Digit(0x00)] && VarInt(16383) == [Digit(0xFE), Digit(0x7F)]
    ensures VarInt(16384) == [Digit(0xFF), Digit(0x00)] && VarInt(16511) == [Digit(0xFF), Digit(0x7F)]
    ensures VarInt(65535) == [Digit(0x82), Digit(0xFE), Digit(0x7F)]
    ensures VarInt(0x1_0000_0000) == [Digit(0x8E), Digit(0xFE), Digit(0xFE), Digit(0xFF), Digit(0x00)]
  {
    hide VarInt; hide Digits;
    ShortForms(0);
    ShortForms(1);
    ShortForms(127);
    ShortForms(128);
    ShortForms(255);
    ShortForms(256);
    ShortForms(16383);
    ShortForms(16384);
    ShortForms(16511);
    ShortForms(65535);
    LongForms(0x1_0000_0000);
    FrontForm(262142);
  }

  // ------------------------------------------------------------ records

  /** The first documented record: version 1, output 1 unspent, height 203998. */
  lemma {:induction false} FirstExample(script: Script)
    ensures var c := CoinRecord(false, [NULL_OUT, TxOut(60_000_000_000, script)], 203998, 1);
            && Storable(c.vout) && HasOutput(c.vout)
            && Encoding(c) == [Digit(0x01), Digit(0x04), Digit(0x83), Digit(0x58), Scripted(script),
                               Digit(0x8b), Digit(0xb8), Digit(0x5e)]
  {
    hide VarInt; hide Compress; hide FlagByte;
    var c := CoinRecord(false, [NULL_OUT, TxOut(60_000_000_000, script)], 203998, 1);
    FirstNumbers();
    assert Avail(c.vout, 1) && !Avail(c.vout, 0) && Span(c.vout) == 0 && Code(c) == 4;
    assert Outs(c.vout, 2) == [] && Outs(c.vout, 1) == OutTokens(c.vout[1]) + Outs(c.vout, 2);
    assert FlagTokens(c.vout, 0, 0) == [];
  }

  lemma {:induction false} FirstNumbers()
    ensures VarInt(1) == [Digit(0x01)] && VarInt(4) == [Digit(0x04)]
    ensures VarInt(203998) == [Digit(0x8b), Digit(0xb8), Digit(0x5e)]
    ensures VarInt(Compress(60_000_000_000)) == [Digit(0x83), Digit(0x58)]
  {
    hide VarInt; hide Digits; hide Strip;
    ShortForms(1);
    ShortForms(4);
    ShortForms(203998);
    CompressScaled(60, 9, 60_000_000_000);
    ShortForms(600);
  }

  /** The outputs of the second example: numbers 4 and 16 of 17 are unspent. */
  function SecondOutputs(a: Script, b: Script): seq<TxOut> {
    seq(17, i => if i == 4 then TxOut(234_925_952, a) else if i == 16 then TxOut(110_397, b) else NULL_OUT)
  }

  lemma {:induction false} SecondMask(a: Script, b: Script)
    ensures var vout := SecondOutputs(a, b);
            && FlagByte(vout, 0) == 0x04 && FlagByte(vout, 1) == 0x40
            && Span(vout) == 2 && Used(vout, 2) == 2 && Nonzero(vout, 2) == 2
  {
    var vout := SecondOutputs(a, b);
    MaskAt(vout, 2, 2, 0x04);
    MaskAt(vout, 10, 6, 0x40);
    assert FlagByte(vout, 0) != 0 && FlagByte(vout, 1) != 0;
    hide FlagByte;
    assert Nonzero(vout, 0) == 0 && Nonzero(vout, 1) == 1;
  }

  /** A byte with one flag. */
  lemma {:induction false} MaskAt(vout: seq<TxOut>, o: nat, p: nat, x: bv8)
    requires p < 8 && x == Mask(p) && forall q: nat :: o <= q < o + 8 ==> (Avail(vout, q) <==> q == o + p)
    ensures FlagBits(vout, o, 8) == x
  {
    hide Avail; hide Mask;
    OneFlag(vout, o, p, 8);
  }

  lemma {:induction false} OneFlag(vout: seq<TxOut>, o: nat, p: nat, i: nat)
    requires p < 8 && i <= 8 && forall q: nat :: o <= q < o + 8 ==> (Avail(vout, q) <==> q == o + p)
    ensures FlagBits(vout, o, i) == if i <= p then 0 else Mask(p)
  {
    hide Avail; hide Mask;
    if i > 0 {
      OneFlag(vout, o, p, i - 1);
      NextFlag(vout, o, i - 1);
      ZeroOr(Mask(p));
    }
  }

  lemma {:induction false} ZeroOr(x: bv8)
    ensures 0 | x == x
  {
  }

  lemma {:induction false} SecondOuts(a: Script, b: Script, i: nat)
    requires i <= 17
    ensures var vout := SecondOutputs(a, b);
            && Storable(vout)
            && Outs(vout, i) ==
               (if i <= 4 then OutTokens(vout[4]) else []) + (if i <= 16 then OutTokens(vout[16]) else [])
    decreases 17 - i
  {
    hide OutTokens;
    if i < 17 { SecondOuts(a, b, i + 1); }
  }

  lemma {:induction false} SecondHead(a: Script, b: Script)
    ensures var c := CoinRecord(true, SecondOutputs(a, b), 120891, 1);
            && HasOutput(c.vout) && Code(c) == 9 && Used(c.vout, Span(c.vout)) == 2
            && FlagTokens(c.vout, 0, 2) == [Flags(0x04), Flags(0x40)]
  {
    hide FlagByte; hide Used; hide Nonzero; hide Span;
    SecondMask(a, b);
    var vout := SecondOutputs(a, b);
    assert FlagTokens(vout, 2, 2) == [] && FlagTokens(vout, 1, 2) == [Flags(0x40)];
  }

  lemma {:induction false} SecondTokens(a: Script, b: Script)
    ensures var vout := SecondOutputs(a, b);
            && |vout| == 17 && vout[4].nValue >= 0 && vout[16].nValue >= 0
            && OutTokens(vout[4]) == VarInt(Compress(234_925_952)) + [Scripted(a)]
            && OutTokens(vout[16]) == VarInt(Compress(110_397)) + [Scripted(b)]
  {
    hide VarInt; hide Compress;
  }

  lemma {:induction false} SecondBody(a: Script, b: Script)
    ensures Storable(SecondOutputs(a, b))
    ensures Outs(SecondOutputs(a, b), 0) ==
            [Digit(0x86), Digit(0xef), Digit(0x97), Digit(0xd5), Digit(0x79), Scripted(a),
             Digit(0xbb), Digit(0xd1), Digit(0x23), Scripted(b)]
  {
    hide SecondOutputs; hide Outs; hide Storable; hide OutTokens; hide VarInt; hide Compress;
    SecondOuts(a, b, 0);
    SecondTokens(a, b);
    SecondNumbers();
  }

  /** The second documented record: a coinbase with two mask bytes. */
  lemma {:induction false} SecondExample(a: Script, b: Script)
    ensures var c := CoinRecord(true, SecondOutputs(a, b), 120891, 1);
            && Storable(c.vout) && HasOutput(c.vout)
            && Encoding(c) == [Digit(0x01), Digit(0x09), Flags(0x04), Flags(0x40),
                               Digit(0x86), Digit(0xef), Digit(0x97), Digit(0xd5), Digit(0x79), Scripted(a),
                               Digit(0xbb), Digit(0xd1), Digit(0x23), Scripted(b),
                               Digit(0x86), Digit(0xaf), Digit(0x3b)]
  {
    hide FlagByte; hide Outs; hide Storable; hide Used; hide Nonzero; hide Span; hide VarInt; hide Compress;
    hide FlagTokens; hide Code; hide HasOutput; hide SecondOutputs;
    SecondHead(a, b);
    SecondBody(a, b);
    SecondNumbers();
  }

  lemma {:induction false} SecondNumbers()
    ensures VarInt(1) == [Digit(0x01)] && VarInt(9) == [Digit(0x09)]
    ensures VarInt(120891) == [Digit(0x86), Digit(0xaf), Digit(0x3b)]
    ensures VarInt(Compress(234_925_952)) == [Digit(0x86), Digit(0xef), Digit(0x97), Digit(0xd5), Digit(0x79)]
    ensures VarInt(Compress(110_397)) == [Digit(0xbb), Digit(0xd1), Digit(0x23)]
  {
    hide VarInt; hide Digits; hide Strip;
    ShortForms(1);
    ShortForms(9);
    ShortForms(120891);
    CompressScaled(234_925_952, 0, 234_925_952);
    LongForms(2114333561);
    FrontForm(129047);
    CompressScaled(110_397, 0, 110_397);
    ShortForms(993571);
  }
}
