// The arithmetic and the fixed request sequences inside a few missions of
// daledou/run.py. Counts come from `int(x / y)` on non-negative integers
// parsed from a page, which for the sizes the game shows is floor division.
module Missions {
  import opened Text

  // ---------------------------------------------------------------------------
  // 神匠坊 (rune workshop)

  /** Crystals one ten-times craft costs. */
  const TenCraftCost: nat := 60
  /** Crystals one single craft costs. */
  const OneCraftCost: nat := 6

  /** How many ten-times crafts (`ten`) and single crafts (`one`) the workshop runs on
      `crystals` crystals: as many ten-times crafts as fit, then single crafts from the rest. */
  function CraftSplit(crystals: nat): (r: (nat, nat))
    ensures TenCraftCost * r.0 + OneCraftCost * r.1 <= crystals
    ensures crystals - TenCraftCost * r.0 < TenCraftCost
    ensures crystals - TenCraftCost * r.0 - OneCraftCost * r.1 < OneCraftCost
  {
    var ten := crystals / 60;
    var one := (crystals - ten * 60) / 6;
    (ten, one)
  }

  /** The split crafts as many times as single crafts alone would: a ten-times craft is ten
      single crafts, and no crystals that could pay for one more craft are left over. */
  lemma CraftSplitCraftsMost(crystals: nat)
    ensures var (ten, one) := CraftSplit(crystals); 10 * ten + one == crystals / OneCraftCost
  {
    var (ten, one) := CraftSplit(crystals);
    var left := crystals - 60 * ten - 6 * one;
    assert 0 <= left < 6;
    assert crystals == 6 * (10 * ten + one) + left;
  }

  /** How often a rune whose page shows `possess`/`number` fragments is synthesised:
      nothing when there are too few, and a ZeroDivisionError (None) when `number` is 0. */
  function SynthesisCount(possess: nat, number: nat): (r: Option<nat>)
    ensures r.None? <==> possess >= number == 0
    ensures r.Some? && possess < number ==> r.value == 0
    ensures r.Some? && possess >= number ==> number * r.value <= possess < number * (r.value + 1)
  {
    if possess < number then Some(0)
    else if number == 0 then None
    else Some(possess / number)
  }

  // ---------------------------------------------------------------------------
  // 乐斗游记 (travel journal)

  /** Overflow points exchanged ten at a time (`r.0` times) and then one at a time (`r.1`). */
  function TravelSplit(points: nat): (r: (nat, nat))
    ensures 10 * r.0 + r.1 == points
    ensures r.1 < 10
  {
    var tens := points / 10;
    (tens, points - tens * 10)
  }

  /** No other way of writing the points as tens plus a remainder below ten exists. */
  lemma TravelSplitUnique(points: nat, tens: nat, ones: nat)
    requires 10 * tens + ones == points && ones < 10
    ensures TravelSplit(points) == (tens, ones)
  {
  }

  // ---------------------------------------------------------------------------
  // 万圣节 (Halloween exchange)

  /** Pumpkin lanterns gift B costs. */
  const GiftBCost: nat := 40
  /** Pumpkin lanterns gift A costs. */
  const GiftACost: nat := 20

  /** The exchange counts as the code computes them: `b = num / 40`,
      `a = (num - int(b) * 40) / 20`, and BOTH loops run `int(a)` times, so gift B is asked
      for `int(a)` times too. */
  function HallowmasAsWritten(lanterns: nat): (r: (nat, nat))
    ensures r.0 == r.1 == (if lanterns % 40 >= 20 then 1 else 0)
  {
    var b := lanterns / 40;
    var a := (lanterns - b * 40) / 20;
    assert lanterns - b * 40 == lanterns % 40;
    (a, a)
  }

  /** The code asks for more lanterns than there are (20 lanterns: gift B and gift A,
      60 lanterns' worth), and with 80 lanterns it exchanges nothing at all. */
  lemma HallowmasAsWrittenOverspends()
    ensures var (b, a) := HallowmasAsWritten(20); GiftBCost * b + GiftACost * a > 20
    ensures HallowmasAsWritten(80) == (0, 0)
  {
  }

  /** The exchange the computed `b` is evidently meant for: gift B `b` times, then gift A
      from what is left. */
  function HallowmasExchanges(lanterns: nat): (r: (nat, nat))
    ensures GiftBCost * r.0 + GiftACost * r.1 <= lanterns
    ensures lanterns - GiftBCost * r.0 < GiftBCost
    ensures lanterns - GiftBCost * r.0 - GiftACost * r.1 < GiftACost
  {
    var b := lanterns / 40;
    var a := (lanterns - b * 40) / 20;
    (b, a)
  }

  // ---------------------------------------------------------------------------
  // 踢馆 (gym challenge)

  /** Sub-types of the gym requests. */
  const Trial: nat := 2
  const Challenge: nat := 3
  const HighWheel: nat := 4

  /** `generate_sequence()`: five trials, one spin of the high-stakes wheel, thirty challenges. */
  function GymSequence(): (r: seq<nat>)
    ensures |r| == 36
    ensures forall k | 0 <= k < 5 :: r[k] == Trial
    ensures r[5] == HighWheel
    ensures forall k | 6 <= k < 36 :: r[k] == Challenge
  {
    [2, 2, 2, 2, 2, 4] + Repeat(3, 30)
  }

  // ---------------------------------------------------------------------------
  // 镶嵌 (soul pearl inlay)

  /** `range(4000 + level, 4061 + level, 10)`: the ids of the pearls of one level. */
  function LevelIds(level: nat): seq<int> {
    Range(4000 + level, 4061 + level, 10)
  }

  /** `get_p()`: the pearl ids upgraded, level 1 ids first, then level 2, then level 3. */
  function PearlIds(): seq<int> {
    LevelIds(1) + LevelIds(2) + LevelIds(3)
  }

  /** Each level has seven pearls, whose ids step by ten from 4000 + level. */
  lemma LevelIdsAt(level: nat)
    ensures |LevelIds(level)| == 7
    ensures forall j | 0 <= j < 7 :: LevelIds(level)[j] == 4000 + level + 10 * j
  {
    RangeLength(4000 + level, 4061 + level, 10, 7);
  }

  /** There are 21 pearl ids; the j-th id of level l + 1 stands at position 7 l + j. */
  lemma PearlIdsByLevel(l: nat, j: nat)
    requires l < 3 && j < 7
    ensures |PearlIds()| == 21
    ensures PearlIds()[7 * l + j] == 4001 + l + 10 * j
  {
    LevelIdsAt(1);
    LevelIdsAt(2);
    LevelIdsAt(3);
    var p := PearlIds();
    if l == 0 {
      assert p[j] == LevelIds(1)[j];
    } else if l == 1 {
      assert p[7 + j] == LevelIds(2)[j];
    } else {
      assert p[14 + j] == LevelIds(3)[j];
    }
  }

  /** The level of the pearl at position k of `get_p()`: 1 for positions 0-6, 2 for 7-13, 3 for 14-20. */
  function LevelAt(k: nat): nat {
    if k < 7 then 1 else if k < 14 then 2 else 3
  }

  /** The last digit of every pearl id is the level of the pearl it upgrades. */
  lemma PearlIdLevelDigit(k: nat)
    requires k < 21
    ensures |PearlIds()| == 21 && PearlIds()[k] % 10 == LevelAt(k)
  {
    var l := LevelAt(k) - 1;
    var j := k - 7 * l;
    PearlIdsByLevel(l, j);
    LastDigit(400 + j, 1 + l);
  }

  lemma LastDigit(tens: nat, digit: nat)
    requires digit < 10
    ensures (10 * tens + digit) % 10 == digit
  {
  }

  /** A range holds the number of steps that fit in it. */
  lemma {:induction false} RangeLength(start: int, stop: int, step: nat, n: nat)
    requires step > 0 && n > 0
    requires start + step * (n - 1) < stop <= start + step * n
    ensures |Range(start, stop, step)| == n
    decreases n
  {
    if n > 1 {
      assert step * (n - 1) == step * (n - 2) + step;
      assert step * n == step * (n - 1) + step;
      RangeLength(start + step, stop, step, n - 1);
    }
  }
}
