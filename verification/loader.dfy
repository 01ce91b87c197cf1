/** The loader component as a state machine. Each engine event is a pure
    function from state to state: loading (`Init`), a press of the spin
    button (`Press`, which runs `Spin` when the button is interactable),
    and one rendered frame (`Tick`), which resumes the rotation coroutine
    while the wheel turns and the reward-display coroutine otherwise.
    Random draws, frame durations and the
    engine's colour parser are parameters. */
module Loader {
  import opened Options
  import opened Int32
  import opened Decimal
  import opened FisherYates
  import opened Rewards
  import opened Selection
  import opened Animation

  /** Seconds between showing the multiplier and showing the coins. */
  const RevealDelay: real := 1.0
  /** Seconds the full display stays on screen before it is cleared. */
  const ClearDelay: real := 4.0

  /** Where the display coroutine is suspended, with the time waited so far. */
  datatype Reveal =
    | Hidden
    | AwaitCoins(reward: int32, waited: real)
    | AwaitClear(waited: real)

  /** The loader's fields and the engine objects it writes to.
      `hostAngle` is the z angle of the loader's own transform, which the
      rotation coroutine reads as its starting angle; `wheelAngle` is the z
      angle of the spinning wheel it writes. */
  datatype State = State(
    loaded: bool,
    coins: int32,
    rewards: seq<RewardItem>,
    divisions: seq<Division>,
    spinTime: real,
    hostAngle: real,
    wheelAngle: real,
    elapsed: real,
    rotating: bool,
    target: real,
    initial: real,
    multiplier: int32,
    button: bool,
    multiplierText: string,
    rewardText: string,
    coinLogo: bool,
    stage: Reveal)

  /** Facts every state the component can be in satisfies, whichever
      methods are called. */
  ghost predicate Valid(s: State) {
    && |s.rewards| <= |s.divisions|
    && s.elapsed >= 0.0
    && (!s.rotating ==> s.elapsed == 0.0)
  }

  /** Every reward's probability is carried by some slice. */
  ghost predicate EveryRewardShown(s: State) {
    forall i :: 0 <= i < |s.rewards| ==> HasSlice(s.divisions, s.rewards[i].probability)
  }

  /** What the display has put on screen at each point of the sequence. */
  ghost predicate RevealScreen(s: State) {
    match s.stage
    case Hidden => s.multiplierText == "" && s.rewardText == "" && !s.coinLogo
    case AwaitCoins(_, _) => s.multiplierText != "" && s.rewardText == "" && !s.coinLogo
    case AwaitClear(_) => s.multiplierText != "" && s.rewardText != "" && s.coinLogo
  }

  /** The invariant of the states reachable by loading, pressing the button
      and rendering frames: the button is disabled for the whole spin and
      display, and the display shows its parts in order. */
  ghost predicate Inv(s: State) {
    && Valid(s)
    && EveryRewardShown(s)
    && RevealScreen(s)
    && (s.rotating ==> s.stage.Hidden?)
    && (s.rotating || !s.stage.Hidden? ==> !s.button)
  }

  /** `Start` followed by `Init`: clear the display UI, then, if the resource
      was found, keep its coins and rewards and populate the slices. A
      missing resource leaves the reward list unset. The button starts out
      interactable. */
  function Init(data: Option<RewardData>, divisions: seq<Division>, spinTime: real,
                hostAngle: real, wheelAngle: real, ks: seq<int>,
                parse: string -> Option<Color>): (s: State)
    requires data.Some? ==> |data.value.rewards| <= |divisions|
    requires data.Some? ==> ValidDraws(|data.value.rewards|, ks)
    ensures Inv(s)
    ensures s.button && !s.rotating && s.stage.Hidden?
    ensures s.multiplierText == "" && s.rewardText == "" && !s.coinLogo
    ensures data.None? ==> !s.loaded && s.rewards == [] && s.divisions == divisions
    ensures data.Some? ==>
      && s.loaded
      && s.coins == data.value.coins
      && s.rewards == data.value.rewards
      && s.divisions == Populate(divisions, data.value.rewards, ks, parse)
  {
    var blank := State(false, 0, [], divisions, spinTime, hostAngle, wheelAngle,
                       0.0, false, 0.0, 0.0, 0, true, "", "", false, Hidden);
    match data
    case None => blank
    case Some(d) =>
      var populated := Populate(divisions, d.rewards, ks, parse);
      PopulateShowsAllRewards(divisions, d.rewards, ks, parse);
      blank.(loaded := true, coins := d.coins, rewards := d.rewards, divisions := populated)
  }

  /** The end of the rotation coroutine: snap to the target, clear the
      rotation flag and timer, and start the display, which computes the
      reward and shows the multiplier at once. */
  function Finish(s: State): (r: State)
    ensures r.wheelAngle == s.target
    ensures !r.rotating && r.elapsed == 0.0
    ensures r.stage == AwaitCoins(Mul(s.coins, s.multiplier), 0.0)
    ensures ReadLabel(r.multiplierText) == Some(s.multiplier as int)
  {
    LabelRoundTrip(s.multiplier);
    s.(wheelAngle := s.target, rotating := false, elapsed := 0.0,
       multiplierText := MultiplierLabel(s.multiplier),
       stage := AwaitCoins(Mul(s.coins, s.multiplier), 0.0))
  }

  /** One resumption of the rotation coroutine's loop, `dt` being the
      frame's duration: while the timer is below the spin time, advance it
      and place the wheel on the eased path; otherwise finish. */
  function Resume(s: State, dt: real): (r: State)
    requires Valid(s) && s.rotating
    requires dt > 0.0
    ensures Valid(r)
    ensures r.target == s.target && r.multiplier == s.multiplier && r.coins == s.coins
    ensures r.rewards == s.rewards && r.divisions == s.divisions && r.spinTime == s.spinTime
    ensures r.button == s.button && r.loaded == s.loaded && r.hostAngle == s.hostAngle
    ensures s.elapsed < s.spinTime ==>
      && r.rotating && r.elapsed == s.elapsed + dt && r.initial == s.initial
      && r.wheelAngle == FrameAngle(s.initial, s.target, s.elapsed + dt, s.spinTime)
      && (s.initial <= s.target ==> s.initial <= r.wheelAngle <= s.target)
      && (r.elapsed >= s.spinTime ==> r.wheelAngle == s.target)
      && r.stage == s.stage && r.multiplierText == s.multiplierText
      && r.rewardText == s.rewardText && r.coinLogo == s.coinLogo
    ensures s.spinTime <= s.elapsed ==>
      && r.wheelAngle == s.target && !r.rotating && r.elapsed == 0.0
      && r.stage == AwaitCoins(Mul(s.coins, s.multiplier), 0.0)
      && ReadLabel(r.multiplierText) == Some(s.multiplier as int)
      && r.rewardText == s.rewardText && r.coinLogo == s.coinLogo
  {
    if s.elapsed < s.spinTime then
      var e := s.elapsed + dt;
      s.(elapsed := e, wheelAngle := FrameAngle(s.initial, s.target, e, s.spinTime))
    else
      Finish(s)
  }

  /** The probability `Spin` looks for among the slices: the picked
      reward's, or 0 when nothing was picked. */
  function Sought(s: State, draw: real): (p: real)
    // the probability of the first reward whose prefix sum reaches the draw
    ensures forall j: nat :: FirstReach(s.rewards, draw, j) ==> p == s.rewards[j].probability
    // and 0 when the draw exceeds every prefix sum
    ensures (forall m :: 0 < m <= |s.rewards| ==> PrefixSum(s.rewards, m) < draw) ==> p == 0.0
  {
    PickedIsEveryFirstReach(s.rewards, draw);
    match Pick(s.rewards, draw)
    case Some(i) => s.rewards[i].probability
    case None => 0.0
  }

  /** `Spin`: disable the button, pick a reward, look for the first slice
      carrying its probability and, if there is one, aim the wheel at it
      and start the rotation coroutine unless it is already running. The
      coroutine runs its first loop step at once, with the current frame's
      duration `dt`. Without a loaded reward list the loop over it fails
      straight after the button is disabled. */
  function Spin(s: State, draw: real, cycles: int, dt: real): (r: State)
    requires Valid(s)
    requires 0.01 <= draw <= 1.0
    requires cycles == 2 || cycles == 3
    requires dt > 0.0
    ensures Valid(r)
    ensures !r.button
    ensures r.loaded == s.loaded && r.coins == s.coins && r.rewards == s.rewards
    ensures r.divisions == s.divisions && r.spinTime == s.spinTime && r.hostAngle == s.hostAngle
    ensures !s.loaded ==> r == s.(button := false)
    // the multiplier is the picked reward's, or the previous one when
    // nothing is picked
    ensures s.loaded && Pick(s.rewards, draw).Some? ==>
      r.multiplier == s.rewards[Pick(s.rewards, draw).value].multiplier
    ensures Pick(s.rewards, draw).None? ==> r.multiplier == s.multiplier
    // without a matching slice nothing moves, yet the button stays disabled
    ensures FindSlice(s.divisions, Sought(s, draw)).None? ==>
      && r.rotating == s.rotating && r.wheelAngle == s.wheelAngle && r.elapsed == s.elapsed
      && r.target == s.target && r.stage == s.stage
    // a matching slice becomes the target, also of a rotation already running
    ensures s.loaded && FindSlice(s.divisions, Sought(s, draw)).Some? ==>
      r.target == TargetAngle(cycles, s.divisions[FindSlice(s.divisions, Sought(s, draw)).value].angle)
    // a running rotation is not started a second time
    ensures s.rotating ==>
      && r.rotating && r.elapsed == s.elapsed && r.initial == s.initial
      && r.wheelAngle == s.wheelAngle && r.stage == s.stage
    // otherwise the new rotation starts from the loader's own angle
    ensures s.loaded && !s.rotating && FindSlice(s.divisions, Sought(s, draw)).Some?
            && s.spinTime > 0.0 ==>
      && r.rotating && r.initial == s.hostAngle && r.elapsed == dt
      && r.wheelAngle == FrameAngle(s.hostAngle, r.target, dt, s.spinTime)
      && r.stage == s.stage && r.multiplierText == s.multiplierText
    // with no spin time the first loop test fails and the wheel snaps at once
    ensures s.loaded && !s.rotating && FindSlice(s.divisions, Sought(s, draw)).Some?
            && s.spinTime <= 0.0 ==>
      && !r.rotating && r.wheelAngle == r.target
      && r.stage == AwaitCoins(Mul(s.coins, r.multiplier), 0.0)
  {
    var s1 := s.(button := false);
    if !s.loaded then s1
    else
      var pick := Pick(s.rewards, draw);
      var s2 := if pick.Some? then s1.(multiplier := s.rewards[pick.value].multiplier) else s1;
      match FindSlice(s.divisions, Sought(s, draw))
      case None => s2
      case Some(j) =>
        var s3 := s2.(target := TargetAngle(cycles, s.divisions[j].angle));
        if s.rotating then s3
        else Resume(s3.(rotating := true, initial := s.hostAngle), dt)
  }

  /** A click on the spin button: the engine ignores it while the button
      is not interactable. */
  function Press(s: State, draw: real, cycles: int, dt: real): (r: State)
    requires Inv(s)
    requires 0.01 <= draw <= 1.0
    requires cycles == 2 || cycles == 3
    requires dt > 0.0
    ensures Inv(r)
    ensures r.rewards == s.rewards && r.coins == s.coins && r.spinTime == s.spinTime
    // no second spin while one is rotating or being displayed
    ensures s.rotating || !s.stage.Hidden? ==> r == s
  {
    if s.button then
      var r := Spin(s, draw, cycles, dt);
      assert r.divisions == s.divisions && r.rewards == s.rewards;
      r
    else s
  }

  /** One frame of the display coroutine: after the first delay show the
      coin logo and the reward, after the second clear everything,
      re-enable the button and populate the slices anew with draws `ks`. */
  function RevealStep(s: State, dt: real, ks: seq<int>, parse: string -> Option<Color>): (r: State)
    requires Valid(s)
    requires dt > 0.0
    requires ValidDraws(|s.rewards|, ks)
    ensures Valid(r)
    ensures r.rotating == s.rotating && r.wheelAngle == s.wheelAngle && r.elapsed == s.elapsed
    ensures r.target == s.target && r.initial == s.initial && r.multiplier == s.multiplier
    ensures r.rewards == s.rewards && r.coins == s.coins && r.spinTime == s.spinTime
    ensures r.loaded == s.loaded && r.hostAngle == s.hostAngle
    ensures s.stage.Hidden? ==> r == s
    ensures s.stage.AwaitCoins? && s.stage.waited + dt >= RevealDelay ==>
      && r.coinLogo && ParseInt(r.rewardText) == Some(s.stage.reward as int)
      && r.multiplierText == s.multiplierText && r.stage == AwaitClear(0.0) && r.button == s.button
    ensures s.stage.AwaitClear? && s.stage.waited + dt >= ClearDelay ==>
      && r.button && r.stage.Hidden?
      && r.multiplierText == "" && r.rewardText == "" && !r.coinLogo
      && r.divisions == Populate(s.divisions, s.rewards, ks, parse)
    ensures ((s.stage.AwaitCoins? && s.stage.waited + dt < RevealDelay)
             || (s.stage.AwaitClear? && s.stage.waited + dt < ClearDelay)) ==>
      r == s.(stage := r.stage)
  {
    match s.stage
    case Hidden => s
    case AwaitCoins(reward, waited) =>
      if waited + dt >= RevealDelay then
        IntRoundTrip(reward);
        s.(coinLogo := true, rewardText := IntToString(reward), stage := AwaitClear(0.0))
      else s.(stage := AwaitCoins(reward, waited + dt))
    case AwaitClear(waited) =>
      if waited + dt >= ClearDelay then
        s.(multiplierText := "", rewardText := "", coinLogo := false, button := true,
           stage := Hidden, divisions := Populate(s.divisions, s.rewards, ks, parse))
      else s.(stage := AwaitClear(waited + dt))
  }

  /** One rendered frame of duration `dt`: it resumes the rotation
      coroutine while the wheel turns, and the display coroutine otherwise.
      Under `Inv` at most one of them runs (a rotating wheel has no display
      pending, and a display only starts when the rotation ends). `ks` are
      the shuffle draws used if this frame ends a display. */
  function Tick(s: State, dt: real, ks: seq<int>, parse: string -> Option<Color>): (r: State)
    requires Inv(s)
    requires dt > 0.0
    requires ValidDraws(|s.rewards|, ks)
    ensures Inv(r)
    ensures r.target == s.target && r.rewards == s.rewards && r.coins == s.coins
    ensures r.spinTime == s.spinTime && r.loaded == s.loaded && r.hostAngle == s.hostAngle
    ensures !s.rotating ==> !r.rotating && r.wheelAngle == s.wheelAngle
    ensures s.rotating && s.elapsed < s.spinTime ==> r.rotating && r.elapsed == s.elapsed + dt
    ensures s.rotating && s.spinTime <= s.elapsed ==>
      && !r.rotating && r.wheelAngle == s.target
      && r.stage == AwaitCoins(Mul(s.coins, s.multiplier), 0.0)
  {
    if s.rotating then
      Resume(s, dt)
    else
      PopulateShowsAllRewards(s.divisions, s.rewards, ks, parse);
      RevealStep(s, dt, ks, parse)
  }

  /** One rendered frame: its duration and the shuffle draws used if the
      frame ends a display. */
  datatype Frame = Frame(dt: real, draws: seq<int>)

  ghost predicate FramesOk(rewardCount: nat, frames: seq<Frame>) {
    forall i :: 0 <= i < |frames| ==> frames[i].dt > 0.0 && ValidDraws(rewardCount, frames[i].draws)
  }

  function SumDt(frames: seq<Frame>): real {
    if frames == [] then 0.0 else frames[0].dt + SumDt(frames[1..])
  }

  /** Dropping the first frame keeps the frames well-formed. */
  lemma FramesOkTail(rewardCount: nat, frames: seq<Frame>)
    requires FramesOk(rewardCount, frames) && frames != []
    ensures FramesOk(rewardCount, frames[1..])
  {
    forall i | 0 <= i < |frames[1..]|
      ensures frames[1..][i].dt > 0.0 && ValidDraws(rewardCount, frames[1..][i].draws)
    {
      assert frames[1..][i] == frames[i + 1];
    }
  }

  /** The state after rendering `frames` one after the other. */
  function Run(s: State, frames: seq<Frame>, parse: string -> Option<Color>): (r: State)
    requires Inv(s)
    requires FramesOk(|s.rewards|, frames)
    ensures Inv(r)
    ensures r.rewards == s.rewards && r.target == s.target && r.spinTime == s.spinTime
    decreases |frames|
  {
    if frames == [] then s
    else
      var next := Tick(s, frames[0].dt, frames[0].draws, parse);
      FramesOkTail(|s.rewards|, frames);
      Run(next, frames[1..], parse)
  }

  /** With the target ahead of the starting angle, the wheel never turns
      back from one frame to the next while the rotation runs: the eased
      path only advances, and the snap at the end lands beyond it. */
  lemma FramesNeverTurnBack(s: State, dt1: real, ks1: seq<int>, dt2: real, ks2: seq<int>,
                            parse: string -> Option<Color>)
    requires Inv(s) && s.rotating && s.elapsed < s.spinTime
    requires s.initial <= s.target
    requires dt1 > 0.0 && ValidDraws(|s.rewards|, ks1)
    requires dt2 > 0.0 && ValidDraws(|s.rewards|, ks2)
    ensures var r1 := Tick(s, dt1, ks1, parse);
      Tick(r1, dt2, ks2, parse).wheelAngle >= r1.wheelAngle
  {
    var r1 := Tick(s, dt1, ks1, parse);
    assert r1 == Resume(s, dt1);
    var r2 := Tick(r1, dt2, ks2, parse);
    if r1.elapsed < r1.spinTime {
      assert r2 == Resume(r1, dt2);
      FrameAngleMonotone(s.initial, s.target, r1.elapsed, r1.elapsed + dt2, s.spinTime);
    } else {
      assert r2.wheelAngle == s.target;
    }
  }

  /** Once the rotation is over, later frames leave the wheel where it is. */
  lemma {:induction false} RunKeepsWheelStill(s: State, frames: seq<Frame>, parse: string -> Option<Color>)
    requires Inv(s) && !s.rotating
    requires FramesOk(|s.rewards|, frames)
    ensures !Run(s, frames, parse).rotating
    ensures Run(s, frames, parse).wheelAngle == s.wheelAngle
    decreases |frames|
  {
    if frames != [] {
      var next := Tick(s, frames[0].dt, frames[0].draws, parse);
      FramesOkTail(|s.rewards|, frames);
      RunKeepsWheelStill(next, frames[1..], parse);
    }
  }

  /** Whatever the frame durations, the frame after the one where the
      timer reaches the spin time leaves the wheel exactly on the target,
      and it stays there. */
  lemma {:induction false} RunReachesTarget(s: State, frames: seq<Frame>, last: Frame,
                                            parse: string -> Option<Color>)
    requires Inv(s) && s.rotating
    requires FramesOk(|s.rewards|, frames + [last])
    requires s.elapsed + SumDt(frames) >= s.spinTime
    ensures !Run(s, frames + [last], parse).rotating
    ensures Run(s, frames + [last], parse).wheelAngle == s.target
    decreases |frames|
  {
    var all := frames + [last];
    var next := Tick(s, all[0].dt, all[0].draws, parse);
    FramesOkTail(|s.rewards|, all);
    assert Run(s, all, parse) == Run(next, all[1..], parse);
    if s.elapsed < s.spinTime {
      assert frames != [];
      assert all[0] == frames[0];
      assert all[1..] == frames[1..] + [last];
      RunReachesTarget(next, frames[1..], last, parse);
    } else {
      RunKeepsWheelStill(next, all[1..], parse);
    }
  }

  /** Population puts every reward on some slice, so a picked reward always
      has a slice to aim at. */
  lemma PickedRewardHasSlice(s: State, draw: real)
    requires Inv(s)
    requires Pick(s.rewards, draw).Some?
    ensures FindSlice(s.divisions, Sought(s, draw)).Some?
  {
    var i := Pick(s.rewards, draw).value;
    assert HasSlice(s.divisions, s.rewards[i].probability);
    var j :| 0 <= j < |s.divisions| && s.divisions[j].probability == s.rewards[i].probability;
  }

  /** A press on an idle wheel that picks a reward ends, after frames that
      add up to the spin time and one more, with the first slice carrying
      the picked probability exactly under the pointer. */
  lemma SpinLandsOnPickedSlice(s: State, draw: real, cycles: int, dt: real,
                               frames: seq<Frame>, last: Frame, parse: string -> Option<Color>)
    requires Inv(s) && s.button && s.loaded && s.spinTime > 0.0
    requires 0.01 <= draw <= 1.0
    requires cycles == 2 || cycles == 3
    requires dt > 0.0
    requires Pick(s.rewards, draw).Some?
    requires FramesOk(|s.rewards|, frames + [last])
    requires dt + SumDt(frames) >= s.spinTime
    ensures FindSlice(s.divisions, s.rewards[Pick(s.rewards, draw).value].probability).Some?
    ensures var j := FindSlice(s.divisions, s.rewards[Pick(s.rewards, draw).value].probability).value;
      var r := Run(Press(s, draw, cycles, dt), frames + [last], parse);
      && !r.rotating
      && r.wheelAngle + s.divisions[j].angle + InitialOffset == ((cycles + 1) * 360) as real
  {
    PickedRewardHasSlice(s, draw);
    var r1 := Press(s, draw, cycles, dt);
    assert r1.rotating && r1.elapsed == dt && r1.rewards == s.rewards;
    RunReachesTarget(r1, frames, last, parse);
  }

  /** A wheel at rest with nothing to display stays as it is, frame after
      frame. */
  lemma {:induction false} RunAtRest(s: State, frames: seq<Frame>, parse: string -> Option<Color>)
    requires Inv(s) && !s.rotating && s.stage.Hidden?
    requires FramesOk(|s.rewards|, frames)
    ensures Run(s, frames, parse) == s
    decreases |frames|
  {
    if frames != [] {
      assert Tick(s, frames[0].dt, frames[0].draws, parse) == s;
      FramesOkTail(|s.rewards|, frames);
      RunAtRest(s, frames[1..], parse);
    }
  }

  /** When no slice matches, which can only happen when nothing was picked,
      the press disables the button and starts nothing, and no later frame
      or press changes the state again: the wheel is stuck. */
  lemma NoMatchLocksWheel(s: State, draw: real, cycles: int, dt: real,
                          frames: seq<Frame>, parse: string -> Option<Color>)
    requires Inv(s) && s.button && s.loaded
    requires 0.01 <= draw <= 1.0
    requires cycles == 2 || cycles == 3
    requires dt > 0.0
    requires FindSlice(s.divisions, Sought(s, draw)).None?
    requires FramesOk(|s.rewards|, frames)
    ensures Pick(s.rewards, draw).None?
    ensures var r := Press(s, draw, cycles, dt);
      && !r.button && !r.rotating && r.stage.Hidden?
      && Run(r, frames, parse) == r
  {
    if Pick(s.rewards, draw).Some? {
      PickedRewardHasSlice(s, draw);
    }
    var r := Press(s, draw, cycles, dt);
    RunAtRest(r, frames, parse);
  }

  /** On a wheel ready to spin, a draw that picks a reward always sets the
      wheel turning: the picked reward has a slice to aim at and no
      rotation is running yet. */
  lemma PickedSpinTurns(s: State, draw: real, cycles: int, dt: real)
    requires Inv(s) && s.loaded && s.button && s.spinTime > 0.0
    requires 0.01 <= draw <= 1.0
    requires cycles == 2 || cycles == 3
    requires dt > 0.0
    requires Pick(s.rewards, draw).Some?
    ensures Spin(s, draw, cycles, dt).rotating
  {
    PickedRewardHasSlice(s, draw);
    assert !s.rotating;
  }

  /** One reward of multiplier 2 and probability 1 with 100 base coins on a
      wheel ready to spin: any draw selects multiplier 2 and sets the wheel
      turning, the display started when it stops carries the reward 200, and
      one second later the reward text is "200". */
  lemma SingleRewardExample(s: State, draw: real, cycles: int, dt: real,
                            parse: string -> Option<Color>)
    requires Inv(s) && s.loaded && s.button && s.spinTime > 0.0
    requires s.coins == 100
    requires s.rewards == [RewardItem(2, 1.0, "#FF0000")]
    requires 0.01 <= draw <= 1.0
    requires cycles == 2 || cycles == 3
    requires dt > 0.0
    ensures Spin(s, draw, cycles, dt).multiplier == 2
    ensures Spin(s, draw, cycles, dt).rotating
    ensures Finish(Spin(s, draw, cycles, dt)).stage == AwaitCoins(200, 0.0)
    ensures RevealStep(Finish(Spin(s, draw, cycles, dt)), RevealDelay, [], parse).rewardText == "200"
  {
    SingleCertainRewardAlwaysWins(s.rewards[0], draw);
    PickedSpinTurns(s, draw, cycles, dt);
    var r := Spin(s, draw, cycles, dt);
    assert r.multiplier == 2 && r.coins == 100;
    assert Mul(100, 2) == 200;
    var f := Finish(r);
    assert f.stage == AwaitCoins(200, 0.0);
    assert Valid(f);
    var g := RevealStep(f, RevealDelay, [], parse);
    assert g.rewardText == IntToString(200);
    assert NatToString(200) == NatToString(20) + "0";
  }
}
