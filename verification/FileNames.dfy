/** Log file names, and why sorting the names sorts the generations. */
module FileNames {
  import opened Bytes

  /** The last `width` decimal digits of `n` in ASCII, zero-padded: `%0<width>d` for `n` below 10^width. */
  function Digits(n: nat, width: nat): (r: Bytes)
    ensures |r| == width
  {
    if width == 0 then [] else Digits(n / 10, width - 1) + [48 + n % 10]
  }

  const WAL_SUFFIX: Bytes := [46, 119, 97, 108]  // ".wal"

  /** `walFileName`: directory, separator, twenty digits, suffix. */
  function WalFileName(dir: Bytes, gen: nat): Bytes {
    dir + [47] + (Digits(gen, 20) + WAL_SUFFIX)
  }

  function Pow10(n: nat): (r: nat)
    ensures r >= 1
  {
    if n == 0 then 1 else 10 * Pow10(n - 1)
  }

  lemma TwentyDigitsHoldUint64()
    ensures UINT64 <= Pow10(20)
  {
    assert Pow10(2) == 100;
    assert Pow10(4) == 100 * Pow10(2);
    assert Pow10(6) == 100 * Pow10(4);
    assert Pow10(8) == 100 * Pow10(6);
    assert Pow10(10) == 100 * Pow10(8);
    assert Pow10(12) == 100 * Pow10(10);
    assert Pow10(14) == 100 * Pow10(12);
    assert Pow10(16) == 100 * Pow10(14);
    assert Pow10(18) == 100 * Pow10(16);
    assert Pow10(20) == 100 * Pow10(18);
  }

  /** Lexicographic order on equal-length prefixes first, then on what follows them. */
  lemma {:induction false} LessOfConcat(x: Bytes, y: Bytes, u: Bytes, v: Bytes)
    requires |x| == |y|
    ensures Less(x + u, y + v) <==> Less(x, y) || (x == y && Less(u, v))
  {
    if x == [] {
      assert x + u == u && y + v == v;
    } else {
      assert (x + u)[1..] == x[1..] + u && (y + v)[1..] == y[1..] + v;
      assert x == [x[0]] + x[1..] && y == [y[0]] + y[1..];
      LessOfConcat(x[1..], y[1..], u, v);
    }
  }

  lemma {:induction false} DigitsOrder(a: nat, b: nat, width: nat)
    requires a < Pow10(width) && b < Pow10(width)
    ensures Less(Digits(a, width), Digits(b, width)) <==> a < b
    ensures Digits(a, width) == Digits(b, width) <==> a == b
  {
    if width > 0 {
      DigitsOrder(a / 10, b / 10, width - 1);
      LessOfConcat(Digits(a / 10, width - 1), Digits(b / 10, width - 1), [48 + a % 10], [48 + b % 10]);
      var x, y := Digits(a, width), Digits(b, width);
      assert x[..width - 1] == Digits(a / 10, width - 1) && y[..width - 1] == Digits(b / 10, width - 1);
      assert x[width - 1] == 48 + a % 10 && y[width - 1] == 48 + b % 10;
    }
  }

  /** Log names sort exactly as their uint64 generations do, in any one directory. */
  lemma NamesSortAsGenerations(dir: Bytes, a: nat, b: nat)
    requires a < UINT64 && b < UINT64
    ensures Less(WalFileName(dir, a), WalFileName(dir, b)) <==> a < b
  {
    TwentyDigitsHoldUint64();
    DigitsOrder(a, b, 20);
    LessIrreflexive(dir + [47]);
    LessIrreflexive(WAL_SUFFIX);
    LessOfConcat(dir + [47], dir + [47], Digits(a, 20) + WAL_SUFFIX, Digits(b, 20) + WAL_SUFFIX);
    LessOfConcat(Digits(a, 20), Digits(b, 20), WAL_SUFFIX, WAL_SUFFIX);
  }

  // ---------- What a name looks like ----------

  /** The number a string of decimal digits stands for. */
  function Decimal(b: Bytes): int {
    if b == [] then 0 else var last: int := b[|b| - 1]; 10 * Decimal(b[..|b| - 1]) + last - 48
  }

  lemma {:induction false} DigitsReadBack(n: nat, width: nat)
    requires n < Pow10(width)
    ensures Decimal(Digits(n, width)) == n
    ensures forall i :: 0 <= i < width ==> 48 <= Digits(n, width)[i] <= 57
  {
    if width > 0 {
      DigitsReadBack(n / 10, width - 1);
      var d := Digits(n, width);
      assert d[..width - 1] == Digits(n / 10, width - 1);
    }
  }

  /** A log's name: the directory, a slash, twenty decimal digits of the generation, and ".wal". */
  lemma NameReadsBack(dir: Bytes, gen: nat)
    requires gen < UINT64
    ensures var name := WalFileName(dir, gen); var n := |dir|;
            && |name| == n + 25 && name[..n] == dir && name[n] == 47 && name[n + 21..] == [46, 119, 97, 108]
            && Decimal(name[n + 1..n + 21]) == gen && forall i :: n + 1 <= i < n + 21 ==> 48 <= name[i] <= 57
  {
    hide Digits, Decimal;
    TwentyDigitsHoldUint64();
    DigitsReadBack(gen, 20);
    var name, d := WalFileName(dir, gen), Digits(gen, 20);
    assert name == dir + [47] + d + WAL_SUFFIX;
    assert name[|dir| + 1..|dir| + 21] == d;
    assert forall i :: 0 <= i < 20 ==> name[|dir| + 1 + i] == d[i];
    forall i | |dir| + 1 <= i < |dir| + 21 ensures 48 <= name[i] <= 57 {
      assert name[|dir| + 1 + (i - |dir| - 1)] == d[i - |dir| - 1];
    }
  }
}
