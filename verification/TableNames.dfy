/** Table file names: they carry level and generation, from which `Open` rebuilds the levels. */
module TableNames {
  import opened Bytes
  import opened FileNames

  const SST_SUFFIX: Bytes := [46, 115, 115, 116]  // ".sst"
  const DASH: byte := 45
  const PLUS: byte := 43
  const LETTER_L: byte := 76
  const INT64_LIMIT: nat := 0x8000_0000_0000_0000

  /** Decimal digits without padding. */
  function Plain(n: nat): (r: Bytes)
    ensures |r| >= 1
  {
    if n < 10 then [48 + n] else Plain(n / 10) + [48 + n % 10]
  }

  /** `L%02d-%020d.sst`. */
  function SstName(level: nat, gen: nat): Bytes {
    [LETTER_L] + LevelDigits(level) + [DASH] + Digits(gen, 20) + SST_SUFFIX
  }

  function LevelDigits(level: nat): Bytes {
    if level < 10 then [48] + Plain(level) else Plain(level)
  }

  // ---------- Reading a name ----------

  /** Position of the first `x`. */
  function FirstOf(b: Bytes, x: byte): (i: Option<nat>)
    ensures i.Some? ==> i.value < |b| && b[i.value] == x
  {
    if b == [] then None
    else if b[0] == x then Some(0)
    else
      var i := FirstOf(b[1..], x);
      if i.None? then None else Some(i.value + 1)
  }

  predicate AllDigits(b: Bytes) {
    forall i :: 0 <= i < |b| ==> 48 <= b[i] <= 57
  }

  /** `strconv.ParseUint`: decimal digits only, below the limit. */
  function ParseDigits(b: Bytes, limit: nat): Option<nat> {
    if b == [] || !AllDigits(b) || !(0 <= Decimal(b) < limit) then None else Some(Decimal(b))
  }

  /** `strconv.Atoi` on text without a minus sign. */
  function Atoi(b: Bytes): Option<nat> {
    if b != [] && b[0] == PLUS then ParseDigits(b[1..], INT64_LIMIT) else ParseDigits(b, INT64_LIMIT)
  }

  /** `parseSSTFilename`: level and generation. */
  function ParseSst(name: Bytes): Option<(nat, nat)> {
    var base := if |name| >= 4 && name[|name| - 4..] == SST_SUFFIX then name[..|name| - 4] else name;
    var dash := FirstOf(base, DASH);
    if dash.None? then None
    else
      var first, second := base[..dash.value], base[dash.value + 1..];
      if |first| < 2 || first[0] != LETTER_L then None
      else
        var level, gen := Atoi(first[1..]), ParseDigits(second, UINT64);
        if level.None? || gen.None? then None else Some((level.value, gen.value))
  }

  // ---------- Names read back ----------

  lemma {:induction false} PlainReadsBack(n: nat)
    ensures AllDigits(Plain(n)) && Decimal(Plain(n)) == n
  {
    var p := Plain(n);
    if n < 10 {
      assert p[..0] == [] && Decimal([]) == 0;
    } else {
      PlainReadsBack(n / 10);
      assert p[..|p| - 1] == Plain(n / 10);
    }
  }

  lemma LevelReadsBack(level: nat)
    ensures AllDigits(LevelDigits(level)) && Decimal(LevelDigits(level)) == level && |LevelDigits(level)| >= 2
  {
    PlainReadsBack(level);
    if level < 10 {
      var d := LevelDigits(level);
      assert d[..1] == [48] && [48][..0] == [] && Decimal([]) == 0;
      assert Decimal([48]) == 0;
    } else {
      assert |Plain(level / 10)| >= 1;
    }
  }

  lemma {:induction false} FirstAfter(a: Bytes, x: byte, b: Bytes)
    requires forall i :: 0 <= i < |a| ==> a[i] != x
    ensures FirstOf(a + [x] + b, x) == Some(|a|)
  {
    var w := a + [x] + b;
    if a != [] {
      FirstAfter(a[1..], x, b);
      assert w[1..] == a[1..] + [x] + b;
      assert w[0] == a[0];
    }
  }

  /** The name of a table file gives back its level and its generation. */
  lemma SstNameReadsBack(level: nat, gen: nat)
    requires level < INT64_LIMIT && gen < UINT64
    ensures ParseSst(SstName(level, gen)) == Some((level, gen))
  {
    hide Decimal, Digits, Plain, LevelDigits, FirstOf;
    LevelReadsBack(level);
    TwentyDigitsHoldUint64();
    DigitsReadBack(gen, 20);
    var lv, g := LevelDigits(level), Digits(gen, 20);
    var first := [LETTER_L] + lv;
    NameParts(first, g);
    assert SstName(level, gen) == first + [DASH] + g + SST_SUFFIX;
    assert forall i :: 0 <= i < |first| ==> first[i] != DASH;
    FirstAfter(first, DASH, g);
    assert first[1..] == lv;
  }

  lemma NameParts(first: Bytes, g: Bytes)
    ensures var base := first + [DASH] + g; var name := base + SST_SUFFIX;
            && name[|name| - 4..] == SST_SUFFIX && name[..|name| - 4] == base
            && base[..|first|] == first && base[|first| + 1..] == g
  {
  }

  /** Of a level below 100: "L", two digits, a dash, twenty digits, ".sst". */
  lemma SstNameLayout(level: nat, gen: nat)
    requires level < 100
    ensures var name := SstName(level, gen);
            |name| == 28 && name[0] == 76 && name[1] == 48 + level / 10 && name[2] == 48 + level % 10 && name[3] == 45
            && name[4..24] == Digits(gen, 20) && name[24..] == [46, 115, 115, 116]
  {
    hide Digits;
    assert Plain(level) == if level < 10 then [48 + level] else [48 + level / 10] + [48 + level % 10];
  }
}
