/** The compact forms used in the coin database: compressed amounts and VARINT numbers. */
module Amounts {
  import opened Wrappers
  import opened Coins

  const TWO64: nat := 0x1_0000_0000_0000_0000

  newtype uint64 = x: int | 0 <= x < TWO64

  // ------------------------------------------------------------ amounts

  /** Divides by ten while possible, at most up to exponent nine. */
  function Strip(n: nat, e: nat): (r: (nat, nat))
    requires n > 0 && e <= 9
    ensures r.0 > 0 && e <= r.1 <= 9 && (r.1 < 9 ==> r.0 % 10 != 0)
    decreases n
  {
    if n % 10 == 0 && e < 9 then Strip(n / 10, e + 1) else (n, e)
  }

  /** The code of the stripped amount `m` and its exponent `e`. */
  function Join(m: nat, e: nat): nat
    requires m > 0 && e <= 9 && (e < 9 ==> m % 10 != 0)
  {
    if e < 9 then 1 + (m / 10 * 9 + m % 10 - 1) * 10 + e else 1 + (m - 1) * 10 + 9
  }

  function Compress(n: nat): nat {
    if n == 0 then 0 else var (m, e) := Strip(n, 0); Join(m, e)
  }

  function Scale(n: nat, e: nat): nat
    decreases e
  {
    if e == 0 then n else Scale(10 * n, e - 1)
  }

  function Split(x: nat): (r: (nat, nat))
    requires x > 0
  {
    var e, y := (x - 1) % 10, (x - 1) / 10;
    (if e < 9 then y / 9 * 10 + y % 9 + 1 else y + 1, e)
  }

  function Decompress(x: nat): nat {
    if x == 0 then 0 else var (m, e) := Split(x); Scale(m, e)
  }

  lemma {:induction false} SplitJoin(m: nat, e: nat)
    requires m > 0 && e <= 9 && (e < 9 ==> m % 10 != 0)
    ensures Split(Join(m, e)) == (m, e)
  {
    if e < 9 {
      var q, d := m / 10, m % 10;
      var y := 9 * q + (d - 1);
      assert y / 9 == q && y % 9 == d - 1;
      assert Join(m, e) - 1 == 10 * y + e;
    } else {
      assert Join(m, e) - 1 == 10 * (m - 1) + 9;
    }
  }

  lemma {:induction false} JoinSplit(x: nat)
    requires x > 0
    ensures var (m, e) := Split(x); m > 0 && e <= 9 && (e < 9 ==> m % 10 != 0) && Join(m, e) == x
  {
    var y := (x - 1) / 10;
    var q, d := y / 9, y % 9;
    assert (10 * q + (d + 1)) % 10 == d + 1 && (10 * q + (d + 1)) / 10 == q;
  }

  lemma {:induction false} ScaleOut(n: nat, e: nat)
    ensures Scale(10 * n, e) == 10 * Scale(n, e) && (n > 0 ==> Scale(n, e) > 0)
    decreases e
  {
    if e > 0 { ScaleOut(10 * n, e - 1); }
  }

  lemma {:induction false} StripScale(n: nat, e: nat)
    requires n > 0 && e <= 9
    ensures Scale(Strip(n, e).0, Strip(n, e).1 - e) == n
    decreases n
  {
    if n % 10 == 0 && e < 9 {
      StripScale(n / 10, e + 1);
      var (m, f) := Strip(n / 10, e + 1);
      ScaleOut(m, f - e - 1);
    }
  }

  lemma {:induction false} ScaleStrip(m: nat, e: nat, k: nat)
    requires m > 0 && k + e <= 9 && (k + e < 9 ==> m % 10 != 0)
    ensures Scale(m, e) > 0 && Strip(Scale(m, e), k) == (m, k + e)
    decreases e
  {
    ScaleOut(m, e);
    if e > 0 {
      ScaleOut(m, e - 1);
      ScaleStrip(m, e - 1, k + 1);
    }
  }

  /** Amount compression loses nothing, */
  lemma {:induction false} DecompressCompress(n: nat)
    ensures Decompress(Compress(n)) == n
  {
    if n > 0 {
      StripScale(n, 0);
      var (m, e) := Strip(n, 0);
      SplitJoin(m, e);
    }
  }

  /** and every number is the compressed form of exactly one amount. */
  lemma {:induction false} CompressDecompress(x: nat)
    ensures Compress(Decompress(x)) == x
  {
    if x > 0 {
      JoinSplit(x);
      var (m, e) := Split(x);
      hide Split; hide Join;
      ScaleStrip(m, e, 0);
    }
  }

  lemma {:induction false} StripLess(n: nat, e: nat)
    requires n > 0 && e <= 9
    ensures Strip(n, e).0 <= n
    decreases n
  {
    if n % 10 == 0 && e < 9 { StripLess(n / 10, e + 1); }
  }

  /** Codes of amounts up to MAX_MONEY fit into 64 bits. */
  lemma {:induction false} CompressFits(n: nat)
    requires n <= MAX_MONEY
    ensures Compress(n) < TWO64
  {
    if n > 0 { StripLess(n, 0); }
  }

  /** The loop in 64-bit arithmetic, which wraps around. */
  method CompressAmount(amount: uint64) returns (r: uint64)
    ensures r as int == Compress(amount as int) % TWO64
    ensures amount as int <= MAX_MONEY ==> r as int == Compress(amount as int)
  {
    hide Join;
    if amount as int <= MAX_MONEY { CompressFits(amount as int); }
    if amount == 0 { return 0; }
    var n, e := amount, 0;
    while n % 10 == 0 && e < 9
      invariant 0 < n <= amount && 0 <= e <= 9
      invariant Strip(n as int, e as int) == Strip(amount as int, 0)
    {
      n, e := n / 10, e + 1;
    }
    r := JoinAmount(n, e);
  }

  /** The code from what the loop leaves. */
  method JoinAmount(n: uint64, e: uint64) returns (r: uint64)
    requires 0 < n && e <= 9 && (e < 9 ==> n % 10 != 0)
    ensures r as int == Join(n as int, e as int) % TWO64
  {
    if e < 9 {
      var d := n % 10;
      r := ((1 + ((n / 10) as int * 9 + d as int - 1) * 10 + e as int) % TWO64) as uint64;
    } else {
      r := ((1 + (n as int - 1) * 10 + 9) % TWO64) as uint64;
    }
  }

  lemma {:induction false} TenTimes(a: nat)
    ensures 10 * (a % TWO64) % TWO64 == 10 * a % TWO64
  {
  }

  lemma {:induction false} ScaleWraps(a: nat, b: nat, e: nat)
    requires a % TWO64 == b % TWO64
    ensures Scale(a, e) % TWO64 == Scale(b, e) % TWO64
    decreases e
  {
    if e > 0 {
      TenTimes(a);
      TenTimes(b);
      ScaleWraps(10 * a, 10 * b, e - 1);
    }
  }

  method DecompressAmount(code: uint64) returns (n: uint64)
    ensures n as int == Decompress(code as int) % TWO64
  {
    if code == 0 { return 0; }
    var x := code - 1;
    var e := x % 10;
    x := x / 10;
    if e < 9 {
      var d := x % 9 + 1;
      x := x / 9;
      n := x * 10 + d;
    } else {
      n := x + 1;
    }
    while e != 0
      invariant 0 <= e <= 9 && Scale(n as int, e as int) % TWO64 == Decompress(code as int) % TWO64
    {
      ghost var tenfold := 10 * n as int;
      ScaleWraps(tenfold, tenfold % TWO64, e as int - 1);
      n, e := (n as int * 10 % TWO64) as uint64, e - 1;
    }
  }

  // ------------------------------------------------------------ VARINT

  /** What a stream holds: bytes of numbers, bytes of flags, and compressed scripts. */
  datatype Token = Digit(n: nat) | Flags(b: bv8) | Scripted(script: Script)

  /** Base 128, most significant group first; every group but the last carries 0x80, and one is
      subtracted at each carry so that no number has two forms. */
  function Digits(n: nat, last: bool): (s: seq<Token>)
    ensures s != []
    decreases n
  {
    (if n <= 0x7F then [] else Digits(n / 128 - 1, false)) + [Digit(n % 128 + if last then 0 else 128)]
  }

  function VarInt(n: nat): seq<Token> { Digits(n, true) }

  function ReadVar(s: seq<Token>, acc: nat): Option<(nat, seq<Token>)> {
    if s == [] || !s[0].Digit? then None
    else
      var n := acc * 128 + s[0].n % 128;
      if s[0].n >= 128 then ReadVar(s[1..], n + 1) else Some((n, s[1..]))
  }

  lemma {:induction false} ReadDigits(n: nat, rest: seq<Token>)
    ensures ReadVar(Digits(n, false) + rest, 0) == ReadVar(rest, n + 1)
    decreases n
  {
    var d := Digit(n % 128 + 128);
    if n <= 0x7F {
      assert ([d] + rest)[1..] == rest;
    } else {
      ReadDigits(n / 128 - 1, [d] + rest);
      assert Digits(n, false) + rest == Digits(n / 128 - 1, false) + ([d] + rest);
      assert ([d] + rest)[1..] == rest;
    }
  }

  lemma {:induction false} ReadVarInt(n: nat, rest: seq<Token>)
    ensures ReadVar(VarInt(n) + rest, 0) == Some((n, rest))
  {
    var d := Digit(n % 128);
    assert ([d] + rest)[1..] == rest;
    if n > 0x7F {
      ReadDigits(n / 128 - 1, [d] + rest);
      assert VarInt(n) + rest == Digits(n / 128 - 1, false) + ([d] + rest);
    }
  }

  /** Only one form: whatever bytes are read as `n` are the bytes that are written for `n`.  `m` is
      the value of the groups before `s`, -1 if there are none. */
  lemma {:induction false} OneForm(s: seq<Token>, m: int, n: nat, rest: seq<Token>)
    requires m >= -1 && ReadVar(s, m + 1) == Some((n, rest)) && forall i :: 0 <= i < |s| && s[i].Digit? ==> s[i].n < 256
    ensures (if m == -1 then [] else Digits(m, false)) + s == VarInt(n) + rest
    decreases |s|
  {
    var d, front := s[0].n, if m == -1 then [] else Digits(m, false);
    var g := (m + 1) * 128 + d % 128;
    assert g / 128 - 1 == m && g % 128 == d % 128;
    assert front + s == front + [s[0]] + s[1..];
    if d >= 128 {
      assert Digits(g, false) == front + [s[0]];
      OneForm(s[1..], g, n, rest);
    } else {
      assert VarInt(g) == front + [s[0]];
    }
  }

  /** The groups as they are written: last one first. */
  function Backwards(tmp: seq<nat>): seq<Token> {
    if tmp == [] then [] else [Digit(tmp[|tmp| - 1])] + Backwards(tmp[..|tmp| - 1])
  }

  lemma {:induction false} OneGroup(n: nat, tmp: seq<nat>)
    ensures var g := n % 128 + if tmp != [] then 128 else 0;
            Digits(n, tmp == []) + Backwards(tmp) == (if n <= 0x7F then [] else Digits(n / 128 - 1, false)) +
              Backwards(tmp + [g])
  {
  }

  /** The first loop of WriteVarInt: the groups, least significant first.  Of a negative number it
      takes one group. */
  method Groups(value: int) returns (tmp: seq<nat>)
    ensures Backwards(tmp) == VarInt(StoredInt(value))
  {
    hide Digits; hide Backwards;
    var n := value;
    tmp := [];
    NoGroups(StoredInt(value));
    while true
      invariant n >= 0 || n == value
      invariant VarInt(StoredInt(value)) == Digits(StoredInt(n), tmp == []) + Backwards(tmp)
      decreases if n < 0 then 0 else n
    {
      OneGroup(StoredInt(n), tmp);
      tmp := tmp + [n % 128 + if tmp != [] then 128 else 0];
      if n <= 0x7F { return; }
      n := n / 128 - 1;
    }
  }

  lemma {:induction false} NoGroups(n: nat)
    ensures Digits(n, true) + Backwards([]) == VarInt(n)
  {
  }

  method WriteVar(value: int) returns (s: seq<Token>)
    ensures s == VarInt(StoredInt(value))
  {
    hide VarInt;
    var tmp := Groups(value);
    s := [];
    var len := |tmp|;
    assert tmp[..len] == tmp;
    while len > 0
      invariant 0 <= len <= |tmp| && s + Backwards(tmp[..len]) == VarInt(StoredInt(value))
    {
      assert tmp[..len][..len - 1] == tmp[..len - 1];
      s := s + [Digit(tmp[len - 1])];
      len := len - 1;
    }
  }

  method ReadVarIntFrom(s: seq<Token>) returns (ok: bool, n: nat, rest: seq<Token>)
    ensures ok <==> ReadVar(s, 0).Some?
    ensures ok ==> ReadVar(s, 0) == Some((n, rest))
  {
    n, rest := 0, s;
    while true
      invariant ReadVar(s, 0) == ReadVar(rest, n)
      decreases rest
    {
      if rest == [] || !rest[0].Digit? { return false, n, rest; }
      var chData := rest[0].n;
      n, rest := n * 128 + chData % 128, rest[1..];
      if chData >= 128 { n := n + 1; } else { return true, n, rest; }
    }
  }

  method SizeOfVarInt(value: int) returns (r: nat)
    ensures r == |VarInt(StoredInt(value))|
  {
    var n := value;
    r := 1;
    while n > 0x7F
      invariant r >= 1 && |VarInt(StoredInt(value))| == r - 1 + |Digits(StoredInt(n), r == 1)|
      decreases n
    {
      n, r := n / 128 - 1, r + 1;
    }
  }
}
