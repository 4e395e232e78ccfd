/** The AD9361 clock chain: which decimations give the fastest converter clock. */
module ClockChain {
  import opened Errors

  const MIN_CLK := 25_000_000
  const MAX_ADC_CLK := 640_000_000
  const MAX_DAC_CLK := 320_000_000
  const MIN_BBPLL_FREQ := 714_928_500
  const MAX_BBPLL_FREQ := 1_430_143_000
  const MAX_DATA_RATE := 61_440_000
  const MIN_DATA_RATE := MIN_CLK / 48
  const MAX_HB1 := 122_880_000
  const MAX_HB2 := 245_760_000
  const MAX_HB3 := 320_000_000

  // ------------------------------------------------------------ one configuration

  /** The decimations of row k, from the converter to the FIR filter. */
  function Config(k: nat, fir: nat): (c: seq<nat>)
    requires k < 7
    ensures |c| == 4
  {
    if k == 0 then [3, 2, 2, fir]
    else if k == 1 then [2, 2, 2, fir]
    else if k == 2 then [3, 2, 1, fir]
    else if k == 3 then [2, 2, 1, fir]
    else if k == 4 then [2, 1, 1, fir]
    else if k == 5 then [3, 1, 1, fir]
    else [1, 1, 1, fir]
  }

  /** The rate behind stage j; 5 is the data rate, 1 the converter. */
  function Rate(c: seq<nat>, s: nat, j: nat): nat
    requires |c| == 4 && 1 <= j <= 5
    decreases 5 - j
  {
    if j == 5 then s else Rate(c, s, j + 1) * c[j - 1]
  }

  function StageLimit(j: nat): nat {
    if j == 2 then MAX_HB3 else if j == 3 then MAX_HB2 else MAX_HB1
  }

  predicate StagesFit(c: seq<nat>, s: nat)
    requires |c| == 4
  {
    forall j :: 2 <= j <= 4 ==> Rate(c, s, j) <= StageLimit(j)
  }

  predicate InPllRange(f: nat) {
    MIN_BBPLL_FREQ <= f <= MAX_BBPLL_FREQ
  }

  /** A configuration the chip can run: the converters in their ranges, halving the clock for
      the DAC only in the first five rows. */
  predicate Valid(s: nat, gov: nat, fir: nat, k: nat)
    requires k < 7
  {
    var c := Config(k, fir);
    && (gov == 0 || c[0] != 3)
    && StagesFit(c, s)
    && MIN_CLK <= Rate(c, s, 1) <= (if k < 5 then MAX_ADC_CLK else MAX_DAC_CLK)
  }

  function Adc(s: nat, fir: nat, k: nat): nat
    requires k < 7
  {
    Rate(Config(k, fir), s, 1)
  }

  // --------------------------------------------------------------- the routines

  lemma StagesFitMeans(c: seq<nat>, s: nat)
    requires |c| == 4
    ensures StagesFit(c, s) <==>
            Rate(c, s, 2) <= 320_000_000 && Rate(c, s, 3) <= 245_760_000 && Rate(c, s, 4) <= 122_880_000
  {
    assert StageLimit(2) == 320_000_000 && StageLimit(3) == 245_760_000 && StageLimit(4) == 122_880_000;
    hide Rate, StageLimit;
  }

  /** The stages behind stage j are within their limits. */
  predicate FitFrom(c: seq<nat>, s: nat, j: nat)
    requires |c| == 4
  {
    forall i :: 2 <= i <= 4 && j < i ==> Rate(c, s, i) <= StageLimit(i)
  }

  lemma FitStep(c: seq<nat>, s: nat, j: nat)
    requires |c| == 4 && 1 <= j <= 4
    ensures Rate(c, s, 5) == s && Rate(c, s, j) == Rate(c, s, j + 1) * c[j - 1]
    ensures FitFrom(c, s, 4) && (FitFrom(c, s, 0) <==> StagesFit(c, s))
    ensures FitFrom(c, s, j - 1) <==> FitFrom(c, s, j) && (j > 1 ==> Rate(c, s, j) <= StageLimit(j))
  {
    assert Rate(c, s, j) == Rate(c, s, j + 1) * c[j - 1];
    hide Rate, StageLimit;
  }

  method CheckRates(c: seq<nat>, s: nat, rates: array<nat>) returns (ok: bool)
    requires |c| == 4 && rates.Length == 6
    modifies rates
    ensures forall j :: 1 <= j <= 5 ==> rates[j] == Rate(c, s, j)
    ensures ok <==> StagesFit(c, s)
    ensures ok <==> rates[2] <= 320_000_000 && rates[3] <= 245_760_000 && rates[4] <= 122_880_000
  {
    hide *;
    ok := true;
    rates[5] := s;
    FitStep(c, s, 4);
    var j := 4;
    while j > 0
      invariant 0 <= j <= 4
      invariant forall i :: j < i <= 5 ==> rates[i] == Rate(c, s, i)
      invariant ok <==> FitFrom(c, s, j)
    {
      FitStep(c, s, j);
      rates[j] := rates[j + 1] * c[j - 1];
      if j > 1 {
        ok := ok && rates[j] <= StageLimit(j);
      }
      j := j - 1;
    }
    FitStep(c, s, 1);
    StagesFitMeans(c, s);
  }

  method DeterminePllDiv(rates: array<nat>) returns (mult: int)
    requires rates.Length == 6
    modifies rates
    ensures rates[1..] == old(rates[1..])
    ensures mult == -1 || (mult in {2, 4, 8, 16, 32, 64} && rates[0] == rates[1] * mult && InPllRange(rates[0]))
    ensures mult != -1 ==> 714_928_500 <= rates[0] <= 1_430_143_000
    ensures mult == -1 <==> forall m :: m in {2, 4, 8, 16, 32, 64} ==> !InPllRange(rates[1] * m)
    ensures forall m :: m in {2, 4, 8, 16, 32, 64} && m > mult ==> !InPllRange(rates[1] * m)
  {
    mult := 64;
    while mult > 1
      invariant mult in {1, 2, 4, 8, 16, 32, 64} && rates[..] == old(rates[..])
      invariant forall m :: m in {2, 4, 8, 16, 32, 64} && m > mult ==> !InPllRange(rates[1] * m)
    {
      if InPllRange(rates[1] * mult) {
        rates[0] := rates[1] * mult;
        return;
      }
      mult := mult / 2;
    }
    return -1;
  }

  /** The PLL reaches every converter clock. */
  lemma PllReaches(r: nat)
    requires MIN_CLK <= r <= MAX_ADC_CLK
    ensures exists m :: m in {2, 4, 8, 16, 32, 64} && InPllRange(r * m)
  {
    var m := if r * 2 >= MIN_BBPLL_FREQ then 2 else if r * 4 >= MIN_BBPLL_FREQ then 4
             else if r * 8 >= MIN_BBPLL_FREQ then 8 else if r * 16 >= MIN_BBPLL_FREQ then 16 else 32;
    assert InPllRange(r * m);
  }

  method CheckDacAdcConfig(pll: nat, mult: nat, k: nat) returns (div: int)
    requires mult > 0
    ensures var r := pll / mult;
            div == if 25_000_000 <= r <= 320_000_000 then 1
                   else if 320_000_000 < r <= 640_000_000 && k < 5 then 2 else -1
  {
    var withDivider, without := pll / mult / 2, pll / mult;
    var a := MIN_CLK <= withDivider <= MAX_DAC_CLK;
    var b := MIN_CLK <= without <= MAX_ADC_CLK;
    var c := MIN_CLK <= without <= MAX_DAC_CLK;
    if c && b {
      return 1;
    } else if a && b && k < 5 {
      return 2;
    }
    return -1;
  }

  // --------------------------------------------------------- what is installed

  /** The stages that run off the DAC divider. */
  predicate Divided(k: nat, j: nat) {
    (k < 2 && 1 <= j < 4) || (k < 4 && 1 <= j < 3)
  }

  /** The PLL runs at a multiple of the converter's clock, the fastest one it can reach. */
  predicate FastestPll(r: nat, pll: nat) {
    InPllRange(pll) && pll > MAX_BBPLL_FREQ / 2 && exists m :: m in {2, 4, 8, 16, 32, 64} && pll == r * m
  }

  /** Clocks of a valid configuration: each transmit rate is the receive rate, divided
      without remainder where the DAC divider acts, and the DAC is in its range. */
  predicate Chain(rx: seq<nat>, tx: seq<nat>, s: nat, fir: nat, k: nat)
    requires k < 7
  {
    && |rx| == |tx| == 6
    && (forall j :: 1 <= j <= 5 ==> rx[j] == Rate(Config(k, fir), s, j))
    && rx[0] == tx[0] && FastestPll(rx[1], rx[0])
    && (forall j :: 1 <= j <= 5 ==> tx[j] * (if Divided(k, j) && rx[1] > MAX_DAC_CLK then 2 else 1) == rx[j])
    && MIN_CLK <= tx[1] <= MAX_DAC_CLK
  }

  /** No valid row before n has a faster converter than row k. */
  predicate Best(s: nat, gov: nat, fir: nat, k: nat, n: nat)
    requires k < 7 && n <= 7
  {
    Valid(s, gov, fir, k) && forall j :: 0 <= j < n && Valid(s, gov, fir, j) ==> Adc(s, fir, j) <= Adc(s, fir, k)
  }

  /** Total decimation between stage j and the FIR filter's input. */
  function Factor(k: nat, j: nat): nat
    requires k < 7 && 1 <= j <= 4
  {
    if j == 4 then 1
    else if j == 3 then if k < 2 then 2 else 1
    else if j == 2 then if k < 2 then 4 else if k < 4 then 2 else 1
    else if k == 0 then 12 else if k == 1 then 8 else if k == 2 then 6 else if k == 3 then 4
    else if k == 4 then 2 else if k == 5 then 3 else 1
  }

  lemma RateForm(s: nat, fir: nat, k: nat)
    requires k < 7
    ensures var c, x := Config(k, fir), s * fir;
            Rate(c, s, 4) == x && Rate(c, s, 3) == Factor(k, 3) * x
            && Rate(c, s, 2) == Factor(k, 2) * x && Rate(c, s, 1) == Factor(k, 1) * x
  {
    var c, x := Config(k, fir), s * fir;
    assert Rate(c, s, 4) == x;
    var a, b, d := Rate(c, s, 3), Rate(c, s, 2), Rate(c, s, 1);
    assert a == x * c[2] && b == a * c[1] && d == b * c[0];
    assert a == if k < 2 then 2 * x else x;
    assert b == if k < 4 then 2 * a else a;
    assert d == if k in {0, 2, 5} then 3 * b else if k == 6 then b else 2 * b;
  }

  lemma Halves(s: nat, fir: nat, k: nat)
    requires k < 7
    ensures forall j :: 1 <= j <= 5 && Divided(k, j) ==> Rate(Config(k, fir), s, j) % 2 == 0
  {
    hide Rate, Config;
    RateForm(s, fir, k);
  }

  /** The divider is never wanted from row 4 on, where no stage would follow it. */
  lemma DividerRows(s: nat, gov: nat, fir: nat, k: nat)
    requires k < 7 && Valid(s, gov, fir, k) && Adc(s, fir, k) > MAX_DAC_CLK
    ensures k < 4
  {
    hide Rate, Config;
    RateForm(s, fir, k);
    assert Rate(Config(k, fir), s, 4) <= StageLimit(4);
  }

  /** With the data rates and filters in use nothing exceeds 32 bits. */
  lemma RatesFit(s: nat, fir: nat, k: nat, j: nat)
    requires s <= MAX_DATA_RATE && fir <= 4 && k < 7 && 1 <= j <= 5
    ensures Rate(Config(k, fir), s, j) < 0x1_0000_0000
  {
    RateForm(s, fir, k);
    FourTimes(s, fir);
    assert Rate(Config(k, fir), s, 5) == s;
    hide Rate, Config;
  }

  lemma FourTimes(s: nat, fir: nat)
    requires fir <= 4
    ensures s * fir <= 4 * s
  {
    assert fir == 0 || fir == 1 || fir == 2 || fir == 3 || fir == 4;
  }

  /** In row k the data rate times the filter's decimation lies in one interval. */
  lemma ValidInterval(s: nat, gov: nat, fir: nat, k: nat)
    requires k < 7
    ensures var x := s * fir;
            Valid(s, gov, fir, k) <==>
            && (gov == 0 || k !in {0, 2, 5})
            && x <= MAX_HB1 && Factor(k, 3) * x <= MAX_HB2 && Factor(k, 2) * x <= MAX_HB3
            && MIN_CLK <= Factor(k, 1) * x <= (if k < 5 then MAX_ADC_CLK else MAX_DAC_CLK)
  {
    RateForm(s, fir, k);
    var c := Config(k, fir);
    assert StagesFit(c, s) <==>
      Rate(c, s, 4) <= MAX_HB1 && Rate(c, s, 3) <= MAX_HB2 && Rate(c, s, 2) <= MAX_HB3 by {
      assert StageLimit(2) == MAX_HB3 && StageLimit(3) == MAX_HB2 && StageLimit(4) == MAX_HB1;
      hide Rate, Config, StageLimit;
    }
    assert c[0] == 3 <==> k in {0, 2, 5};
    hide Rate, Config, StagesFit, Factor;
  }

  predicate Possible(s: nat, gov: nat, fir: nat) {
    exists k :: 0 <= k < 7 && Valid(s, gov, fir, k)
  }

  function Lowest(gov: nat): nat {
    if gov == 0 then 520_834 else 781_250
  }

  /** The filter decimates by 4 while its input stays within the first half-band's limit. */
  lemma FilterByFour(s: nat, gov: nat)
    ensures Possible(s, gov, 4) <==> Lowest(gov) <= s <= MAX_HB1 / 4
  {
    hide Valid, Config;
    forall k | 0 <= k < 7 && Valid(s, gov, 4, k) ensures Lowest(gov) <= s <= MAX_HB1 / 4 {
      ValidInterval(s, gov, 4, k);
    }
    if Lowest(gov) <= s <= MAX_HB1 / 4 {
      var k := if s > 20_000_000 then 3 else if gov == 0 && s < 781_250 then 0 else 1;
      ValidInterval(s, gov, 4, k);
      assert Valid(s, gov, 4, k);
    }
  }

  lemma FilterByTwo(s: nat, gov: nat)
    requires s > MAX_HB1 / 4 || s < Lowest(gov)
    ensures Possible(s, gov, 2) <==> MAX_HB1 / 4 < s <= MAX_DATA_RATE
  {
    hide Valid, Config;
    forall k | 0 <= k < 7 && Valid(s, gov, 2, k) ensures MAX_HB1 / 4 < s <= MAX_DATA_RATE {
      ValidInterval(s, gov, 2, k);
    }
    if MAX_HB1 / 4 < s <= MAX_DATA_RATE {
      ValidInterval(s, gov, 2, 3);
      assert Valid(s, gov, 2, 3);
    }
  }

  lemma NoFilter(s: nat, gov: nat)
    requires s < Lowest(gov)
    ensures !Possible(s, gov, 1)
  {
    hide Valid, Config;
    forall k | 0 <= k < 7 ensures !Valid(s, gov, 1, k) {
      ValidInterval(s, gov, 1, k);
    }
  }

  /** Which filter the search ends with. */
  lemma FilterChoice(s: nat, gov: nat)
    requires s <= MAX_DATA_RATE
    ensures Possible(s, gov, 4) <==> Lowest(gov) <= s <= MAX_HB1 / 4
    ensures !Possible(s, gov, 4) ==> (Possible(s, gov, 2) <==> MAX_HB1 / 4 < s)
    ensures !Possible(s, gov, 4) && !Possible(s, gov, 2) ==> !Possible(s, gov, 1)
  {
    hide Possible;
    FilterByFour(s, gov);
    if s > MAX_HB1 / 4 || s < Lowest(gov) {
      FilterByTwo(s, gov);
    }
    if s < Lowest(gov) {
      NoFilter(s, gov);
    }
  }

  // ------------------------------------------------------- the clocks it finds

  /** Off the DAC divider the last half-band stage that doubles has no effect on the transmit
      side; all the others multiply the rate as on the receive side. */
  lemma TransmitStages(rx: seq<nat>, tx: seq<nat>, s: nat, fir: nat, k: nat, j: nat)
    requires k < 7 && Chain(rx, tx, s, fir, k) && 1 <= j <= 4
    ensures rx[5] == tx[5] == s && rx[j] == rx[j + 1] * Config(k, fir)[j - 1]
    ensures rx[1] <= MAX_DAC_CLK || k >= 4 ==> tx == rx
    ensures rx[1] > MAX_DAC_CLK && k < 4 ==>
              tx[j] == if j == (if k < 2 then 3 else 2) then tx[j + 1] else tx[j + 1] * Config(k, fir)[j - 1]
  {
    hide FastestPll, Config;
    var c := Config(k, fir);
    ReceiveStage(rx, s, fir, k, j);
    assert rx[5] == s && tx[5] == s;
    hide Rate;
    if rx[1] > MAX_DAC_CLK && k < 4 {
      LastDivided(fir, k, j);
      if Divided(k, j) && Divided(k, j + 1) {
        HalfOfProduct(tx[j], tx[j + 1], c[j - 1]);
      }
    } else {
      assert forall i :: 0 <= i < 6 ==> tx[i] == rx[i];
    }
  }

  lemma ReceiveStage(rx: seq<nat>, s: nat, fir: nat, k: nat, j: nat)
    requires k < 7 && |rx| == 6 && 1 <= j <= 4
    requires forall i :: 1 <= i <= 5 ==> rx[i] == Rate(Config(k, fir), s, i)
    ensures rx[j] == rx[j + 1] * Config(k, fir)[j - 1]
  {
    hide Config;
  }

  lemma LastDivided(fir: nat, k: nat, j: nat)
    requires k < 4 && 1 <= j <= 4
    ensures var last := if k < 2 then 3 else 2;
            && Config(k, fir)[last - 1] == 2
            && (Divided(k, j) <==> j <= last) && (Divided(k, j + 1) <==> j < last)
  {
  }

  lemma HalfOfProduct(a: nat, b: nat, c: nat)
    requires a * 2 == b * 2 * c
    ensures a == b * c
  {
    assert b * 2 * c == 2 * (b * c);
  }

  /** What the converter's clock is of the filter's input rate x. */
  function Ratio(x: nat, gov: nat): nat {
    if gov == 0 && 12 * x <= 640_000_000 then 12
    else if 8 * x <= 640_000_000 then 8
    else if gov == 0 && 6 * x <= 640_000_000 then 6
    else 4
  }

  /** All twelve clocks, from the data rate alone. */
  predicate IsChain(rx: seq<nat>, tx: seq<nat>, s: nat, gov: nat) {
    && |rx| == |tx| == 6
    && var x := if s <= 30_720_000 then 4 * s else 2 * s;
       var r := Ratio(x, gov);
       && rx[5] == s && rx[4] == x && rx[1] == r * x
       && (r >= 8 ==> rx[3] == 2 * x && rx[2] == 4 * x) && (r < 8 ==> rx[3] == x && rx[2] == 2 * x)
       && tx[5] == rx[5] && tx[4] == rx[4]
       && (rx[1] <= 320_000_000 ==> tx[3] == rx[3] && tx[2] == rx[2] && tx[1] == rx[1])
       && (rx[1] > 320_000_000 ==> 2 * tx[2] == rx[2] && 2 * tx[1] == rx[1])
       && (rx[1] > 320_000_000 ==> tx[3] == x)
       && 715_071_500 < rx[0] <= 1_430_143_000 && tx[0] == rx[0]
       && exists m :: m in {2, 4, 8, 16, 32, 64} && rx[0] == rx[1] * m
  }

  lemma BestRatio(s: nat, gov: nat, fir: nat, k: nat)
    requires k < 7 && Best(s, gov, fir, k, 7)
    ensures k == (match Ratio(s * fir, gov) case 12 => 0 case 8 => 1 case 6 => 2 case _ => 3)
    ensures Factor(k, 1) == Ratio(s * fir, gov)
  {
    var x := s * fir;
    forall j | 0 <= j < 7
      ensures Adc(s, fir, j) == Factor(j, 1) * x
      ensures Valid(s, gov, fir, j) <==>
              && (gov == 0 || j !in {0, 2, 5})
              && x <= MAX_HB1 && Factor(j, 3) * x <= MAX_HB2 && Factor(j, 2) * x <= MAX_HB3
              && MIN_CLK <= Factor(j, 1) * x <= (if j < 5 then MAX_ADC_CLK else MAX_DAC_CLK)
    {
      RateForm(s, fir, j);
      ValidInterval(s, gov, fir, j);
    }
    hide Valid, Adc;
    BestOf(x, gov, k, s, fir);
  }

  lemma BestOf(x: nat, gov: nat, k: nat, s: nat, fir: nat)
    requires k < 7 && Best(s, gov, fir, k, 7)
    requires forall j :: 0 <= j < 7 ==> Adc(s, fir, j) == Factor(j, 1) * x
    requires forall j :: 0 <= j < 7 ==>
               (Valid(s, gov, fir, j) <==>
                && (gov == 0 || j !in {0, 2, 5})
                && x <= MAX_HB1 && Factor(j, 3) * x <= MAX_HB2 && Factor(j, 2) * x <= MAX_HB3
                && MIN_CLK <= Factor(j, 1) * x <= (if j < 5 then MAX_ADC_CLK else MAX_DAC_CLK))
    ensures k == (match Ratio(x, gov) case 12 => 0 case 8 => 1 case 6 => 2 case _ => 3)
    ensures Factor(k, 1) == Ratio(x, gov)
  {
    hide Valid, Adc;
    var r := match Ratio(x, gov) case 12 => 0 case 8 => 1 case 6 => 2 case _ => 3;
    assert Factor(r, 1) == Ratio(x, gov);
    assert Valid(s, gov, fir, r);
    assert Adc(s, fir, r) <= Adc(s, fir, k);
  }

  lemma ChainIs(rx: seq<nat>, tx: seq<nat>, s: nat, gov: nat, fir: nat, k: nat)
    requires k < 7 && Best(s, gov, fir, k, 7) && Chain(rx, tx, s, fir, k)
    requires fir == if s <= 30_720_000 then 4 else 2
    ensures IsChain(rx, tx, s, gov)
  {
    var x := if s <= 30_720_000 then 4 * s else 2 * s;
    BestRatio(s, gov, fir, k);
    RateForm(s, fir, k);
    assert rx[5] == s;
    hide Rate, Config, Best, Ratio;
  }

  // ------------------------------------------------------------- the search

  class Search {
    var maxRateFound: nat

    /** set_rates. */
    method SetRates(rx: array<nat>, tx: array<nat>, div: nat, rates: array<nat>, k: nat)
      requires rx.Length == 6 && tx.Length == 6 && rates.Length == 6 && div > 0
      requires rx != tx && rx != rates && tx != rates
      modifies this, rx, tx
      ensures rates[1] <= old(maxRateFound) ==>
                maxRateFound == old(maxRateFound) && rx[..] == old(rx[..]) && tx[..] == old(tx[..])
      ensures rates[1] > old(maxRateFound) ==>
                maxRateFound == rates[1] && rx[..] == rates[..]
                && forall j :: 0 <= j < 6 ==> tx[j] == if Divided(k, j) then rates[j] / div else rates[j]
    {
      if rates[1] <= maxRateFound {
        return;
      }
      maxRateFound := rates[1];
      var j := 0;
      while j < 6
        invariant 0 <= j <= 6 && maxRateFound == rates[1] > old(maxRateFound)
        invariant rates[..] == old(rates[..])
        invariant forall i :: 0 <= i < j ==> rx[i] == rates[i]
        invariant forall i :: 0 <= i < j ==> tx[i] == if Divided(k, i) then rates[i] / div else rates[i]
      {
        rx[j] := rates[j];
        tx[j] := rates[j];
        if j > 0 {
          if k < 2 && j < 4 {
            tx[j] := rates[j] / div;
          } else if k < 4 && j < 3 {
            tx[j] := rates[j] / div;
          }
        }
        j := j + 1;
      }
    }

    /** One turn of the loop over the rows. */
    method TryRow(s: nat, gov: nat, fir: nat, k: nat, rates: array<nat>, rx: array<nat>, tx: array<nat>)
      requires k < 7 && rx.Length == 6 && tx.Length == 6 && rates.Length == 6
      requires rx != tx && rx != rates && tx != rates
      modifies this, rx, tx, rates
      ensures Valid(s, gov, fir, k) && Adc(s, fir, k) > old(maxRateFound) ==>
                maxRateFound == Adc(s, fir, k) && Chain(rx[..], tx[..], s, fir, k)
      ensures !(Valid(s, gov, fir, k) && Adc(s, fir, k) > old(maxRateFound)) ==>
                maxRateFound == old(maxRateFound) && rx[..] == old(rx[..]) && tx[..] == old(tx[..])
    {
      var c := Config(k, fir);
      if gov > 0 && c[0] == 3 {
        return;
      }
      var ok := CheckRates(c, s, rates);
      if ok {
        var mult := DeterminePllDiv(rates);
        ghost var r := Adc(s, fir, k);
        assert rates[1] == r;
        if MIN_CLK <= r <= MAX_ADC_CLK {
          PllReaches(r);
        }
        if mult > 0 {
          Quotient(r, mult);
          var div := CheckDacAdcConfig(rates[0], mult, k);
          if div > 0 {
            LargestIsFastest(r, mult);
            SetRates(rx, tx, div, rates, k);
            if maxRateFound != old(maxRateFound) {
              ChainSet(rx[..], tx[..], s, gov, fir, k, div);
            }
          }
        }
      }
    }

    /** determine_path_rates_with_fir. */
    method DeterminePathRates(s: nat, gov: nat, rx: array<nat>, tx: array<nat>, fir: nat)
      returns (ret: int, ghost best: nat)
      requires rx.Length == 6 && tx.Length == 6 && rx != tx
      modifies this, rx, tx
      ensures ret == 0 <==> Possible(s, gov, fir)
      ensures ret == 0 ==> best < 7 && Best(s, gov, fir, best, 7) && Chain(rx[..], tx[..], s, fir, best)
      ensures ret != 0 ==> ret == -EINVAL && rx[..] == old(rx[..]) && tx[..] == old(tx[..])
    {
      hide Valid, Chain, Adc;
      var rates := new nat[6];
      maxRateFound := 0;
      best := 0;
      var k := 0;
      while k < 7
        invariant 0 <= k <= 7 && best < 7
        invariant fresh(rates)
        invariant maxRateFound == 0 ==> forall j :: 0 <= j < k ==> !Valid(s, gov, fir, j)
        invariant maxRateFound == 0 ==> rx[..] == old(rx[..]) && tx[..] == old(tx[..])
        invariant maxRateFound > 0 ==>
                    Best(s, gov, fir, best, k) && maxRateFound == Adc(s, fir, best)
                    && Chain(rx[..], tx[..], s, fir, best)
      {
        FastEnough(s, gov, fir, k);
        ghost var before := maxRateFound;
        TryRow(s, gov, fir, k, rates, rx, tx);
        if maxRateFound > before {
          best := k;
        }
        k := k + 1;
      }
      return if maxRateFound == 0 then -EINVAL else 0, best;
    }

    /** ad9361_calculate_rf_clock_chain. The lower bound it tests, a 48th of the slowest
        converter clock rounded down, is one too low. */
    method CalculateRfClockChain(s: nat, gov: nat, rx: array<nat>, tx: array<nat>)
      returns (ret: int, ghost best: nat)
      requires rx.Length == 6 && tx.Length == 6 && rx != tx
      modifies this, rx, tx
      ensures ret == 0 <==> (if gov == 0 then 520_834 else 781_250) <= s <= 61_440_000
      ensures ret == 0 ==>
                var fir := if s <= 30_720_000 then 4 else 2;
                best < 7 && Best(s, gov, fir, best, 7) && Chain(rx[..], tx[..], s, fir, best)
      ensures ret == 0 ==> IsChain(rx[..], tx[..], s, gov)
      ensures ret != 0 ==> ret == -EINVAL && rx[..] == old(rx[..]) && tx[..] == old(tx[..])
    {
      hide Valid, Chain, Best, Possible, IsChain;
      best := 0;
      if !(MIN_DATA_RATE <= s <= MAX_DATA_RATE) {
        return -EINVAL, best;
      }
      FilterChoice(s, gov);
      var fir := [4, 2, 1];
      ret := -EINVAL;
      var k := 0;
      while k < 3
        invariant 0 <= k <= 3 && ret == -EINVAL
        invariant k > 0 ==> !Possible(s, gov, 4)
        invariant k > 1 ==> !Possible(s, gov, 2)
        invariant k > 2 ==> !Possible(s, gov, 1)
        invariant rx[..] == old(rx[..]) && tx[..] == old(tx[..])
      {
        ret, best := DeterminePathRates(s, gov, rx, tx, fir[k]);
        if ret == 0 {
          ChainIs(rx[..], tx[..], s, gov, fir[k], best);
          break;
        }
        k := k + 1;
      }
    }
  }

  lemma LargestIsFastest(r: nat, mult: int)
    requires r >= MIN_CLK && mult in {2, 4, 8, 16, 32, 64} && InPllRange(r * mult)
    requires forall m :: m in {2, 4, 8, 16, 32, 64} && m > mult ==> !InPllRange(r * m)
    ensures FastestPll(r, r * mult)
  {
    if mult < 64 {
      assert !InPllRange(r * (2 * mult));
      assert r * (2 * mult) == 2 * (r * mult);
    }
  }

  lemma Quotient(r: nat, mult: int)
    requires mult in {2, 4, 8, 16, 32, 64}
    ensures r * mult / mult == r
  {
  }

  lemma FastEnough(s: nat, gov: nat, fir: nat, k: nat)
    requires k < 7
    ensures Valid(s, gov, fir, k) ==> Adc(s, fir, k) >= MIN_CLK
  {
  }

  lemma ChainSet(rx: seq<nat>, tx: seq<nat>, s: nat, gov: nat, fir: nat, k: nat, div: nat)
    requires k < 7 && |rx| == |tx| == 6 && Valid(s, gov, fir, k) && FastestPll(rx[1], rx[0])
    requires forall j :: 1 <= j <= 5 ==> rx[j] == Rate(Config(k, fir), s, j)
    requires div == if rx[1] > MAX_DAC_CLK then 2 else 1
    requires forall j :: 0 <= j < 6 ==> tx[j] == if Divided(k, j) then rx[j] / div else rx[j]
    ensures Chain(rx, tx, s, fir, k)
  {
    assert rx[1] == Adc(s, fir, k);
    Halves(s, fir, k);
    if rx[1] > MAX_DAC_CLK {
      DividerRows(s, gov, fir, k);
    }
    assert MIN_CLK <= rx[1] <= MAX_ADC_CLK;
    hide Rate, Config;
    forall j | 1 <= j <= 5
      ensures tx[j] * (if Divided(k, j) && rx[1] > MAX_DAC_CLK then 2 else 1) == rx[j]
    {
      assert Divided(k, j) ==> rx[j] % 2 == 0;
    }
  }
}
