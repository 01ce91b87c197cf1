/** The loader's data: reward definitions as read from the bundled JSON
    resource, and the wheel's slices, with the population step that lays a
    shuffled copy of the rewards out on the slices. */
module Rewards {
  import opened Options
  import opened Int32
  import opened Decimal
  import opened FisherYates

  /** A colour as the engine's HTML-colour parser produces it. */
  datatype Color = Color(r: real, g: real, b: real, a: real)

  /** One entry of the `rewards` array; `color` is an HTML colour string. */
  datatype RewardItem = RewardItem(multiplier: int32, probability: real, color: string)

  /** The whole resource: the base coin amount and the rewards in order. */
  datatype RewardData = RewardData(coins: int32, rewards: seq<RewardItem>)

  /** One wedge of the wheel: its label, fill colour, the probability it
      was given, and the z angle of its transform, which population never
      changes. */
  datatype Division = Division(text: string, color: Color, probability: real, angle: real)

  /** The label a slice shows for a multiplier: "x" and the decimal value. */
  function MultiplierLabel(m: int): (text: string)
    ensures |text| > 1 && text[0] == 'x'
  {
    "x" + IntToString(m)
  }

  /** Recovers the multiplier a label shows. */
  function ReadLabel(text: string): Option<int> {
    if |text| > 0 && text[0] == 'x' then ParseInt(text[1..]) else None
  }

  lemma LabelRoundTrip(m: int)
    ensures ReadLabel(MultiplierLabel(m)) == Some(m)
  {
    assert MultiplierLabel(m)[1..] == IntToString(m);
    IntRoundTrip(m);
  }

  /** The fill colour a slice ends up with: the parsed one, or the old one
      when the string does not parse. */
  function NewColor(current: Color, code: string, parse: string -> Option<Color>): Color {
    match parse(code)
    case Some(c) => c
    case None => current
  }

  /** One iteration of the population loop: slice `d` takes on `item`. */
  function Assign(d: Division, item: RewardItem, parse: string -> Option<Color>): Division {
    d.(text := MultiplierLabel(item.multiplier),
       color := NewColor(d.color, item.color, parse),
       probability := item.probability)
  }

  function DivisionProbability(d: Division): real { d.probability }
  function ItemProbability(item: RewardItem): real { item.probability }
  function DivisionMultiplier(d: Division): Option<int> { ReadLabel(d.text) }
  function ItemMultiplier(item: RewardItem): Option<int> { Some(item.multiplier as int) }

  /** `PopulateWheelData`: shuffle a copy of the rewards with draws `ks`
      and write entry `i` of the copy onto slice `i`. The loop indexes the
      slice array with every index of the reward list, so it needs at least
      as many slices as rewards. */
  function Populate(divisions: seq<Division>, rewards: seq<RewardItem>, ks: seq<int>,
                    parse: string -> Option<Color>): (r: seq<Division>)
    requires |rewards| <= |divisions|
    requires ValidDraws(|rewards|, ks)
    ensures |r| == |divisions|
    ensures var shuffled := Shuffle(rewards, ks);
      forall i :: 0 <= i < |rewards| ==>
        && r[i].probability == shuffled[i].probability
        && r[i].text == MultiplierLabel(shuffled[i].multiplier)
        && r[i].angle == divisions[i].angle
    ensures forall i :: |rewards| <= i < |divisions| ==> r[i] == divisions[i]
  {
    var shuffled := Shuffle(rewards, ks);
    seq(|divisions|, i requires 0 <= i < |divisions| =>
      if i < |shuffled| then Assign(divisions[i], shuffled[i], parse)
      else divisions[i])
  }

  /** The colour written onto a populated slice. */
  lemma PopulateColors(divisions: seq<Division>, rewards: seq<RewardItem>, ks: seq<int>,
                       parse: string -> Option<Color>, i: nat)
    requires |rewards| <= |divisions|
    requires ValidDraws(|rewards|, ks)
    requires i < |rewards|
    ensures parse(Shuffle(rewards, ks)[i].color).Some? ==>
      Populate(divisions, rewards, ks, parse)[i].color == parse(Shuffle(rewards, ks)[i].color).value
    ensures parse(Shuffle(rewards, ks)[i].color).None? ==>
      Populate(divisions, rewards, ks, parse)[i].color == divisions[i].color
  {
  }

  /** With one slice per reward, the slices carry exactly the rewards'
      probabilities and show exactly the rewards' multipliers, each as often
      as it is configured. */
  lemma PopulateShowsEveryReward(divisions: seq<Division>, rewards: seq<RewardItem>, ks: seq<int>,
                                 parse: string -> Option<Color>)
    requires |rewards| == |divisions|
    requires ValidDraws(|rewards|, ks)
    ensures multiset(Map(DivisionProbability, Populate(divisions, rewards, ks, parse)))
         == multiset(Map(ItemProbability, rewards))
    ensures multiset(Map(DivisionMultiplier, Populate(divisions, rewards, ks, parse)))
         == multiset(Map(ItemMultiplier, rewards))
  {
    var r := Populate(divisions, rewards, ks, parse);
    var shuffled := Shuffle(rewards, ks);
    assert Map(DivisionProbability, r) == Map(ItemProbability, shuffled);
    forall i | 0 <= i < |r|
      ensures DivisionMultiplier(r[i]) == ItemMultiplier(shuffled[i])
    {
      LabelRoundTrip(shuffled[i].multiplier);
    }
    assert Map(DivisionMultiplier, r) == Map(ItemMultiplier, shuffled);
    ShuffleKeepsProjection(ItemProbability, rewards, ks);
    ShuffleKeepsProjection(ItemMultiplier, rewards, ks);
  }

  /** Some slice carries probability `p`. */
  ghost predicate HasSlice(divisions: seq<Division>, p: real) {
    exists j :: 0 <= j < |divisions| && divisions[j].probability == p
  }

  /** After population every reward's probability is carried by some
      slice, so the slice scan that follows a successful pick finds one. */
  lemma PopulateShowsEachReward(divisions: seq<Division>, rewards: seq<RewardItem>, ks: seq<int>,
                                parse: string -> Option<Color>, i: nat)
    requires |rewards| <= |divisions|
    requires ValidDraws(|rewards|, ks)
    requires i < |rewards|
    ensures HasSlice(Populate(divisions, rewards, ks, parse), rewards[i].probability)
  {
    var shuffled := Shuffle(rewards, ks);
    assert rewards[i] in multiset(rewards);
    assert rewards[i] in shuffled;
    var j :| 0 <= j < |shuffled| && shuffled[j] == rewards[i];
    assert Populate(divisions, rewards, ks, parse)[j].probability == rewards[i].probability;
  }

  lemma PopulateShowsAllRewards(divisions: seq<Division>, rewards: seq<RewardItem>, ks: seq<int>,
                                parse: string -> Option<Color>)
    requires |rewards| <= |divisions|
    requires ValidDraws(|rewards|, ks)
    ensures forall i :: 0 <= i < |rewards| ==>
      HasSlice(Populate(divisions, rewards, ks, parse), rewards[i].probability)
  {
    forall i | 0 <= i < |rewards|
      ensures HasSlice(Populate(divisions, rewards, ks, parse), rewards[i].probability)
    {
      PopulateShowsEachReward(divisions, rewards, ks, parse, i);
    }
  }
}
