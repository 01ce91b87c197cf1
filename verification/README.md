# Fortune wheel reward loop in Dafny

This project models the game logic of the fortune-wheel screen, held in
`DataLoader.cs`. Its main parts are:

- **Loading.** The reward table holds a coin amount and a list of reward items. Each item has a
  multiplier, a probability and a colour code.
- **Populating the wheel.** The reward items are shuffled with a Fisher–Yates shuffle. Then the
  first slices get the label `"x<multiplier>"`, the colour and the probability of the shuffled
  items, in order.
- **Spinning.** A weighted pick is made over the reward list in its file order. The code then
  finds the first slice whose probability equals the picked one, and computes a target angle of
  2 or 3 full turns plus the turn that brings that slice under the pointer.
- **The rotation coroutine.** It uses a quadratic ease-out, clamped linear interpolation, and a
  snap to the target at the end.
- **The reveal coroutine.** It shows the multiplier, shows `coins × multiplier` after one second,
  clears everything four seconds later, re-enables the button and shuffles the wheel again.

The modules follow the program's structure:

- `FisherYates` (`shuffle.dfy`) is the shuffle. It has three forms:
  - a reference function `Steps`, one swap per step;
  - the array method `ShuffleList`, which is proved equal to it;
  - `Unshuffle`, which finds the draws for any rearrangement, together with `ShuffleInjective`.
    With distinct items, these two make the map from draw sequences to arrangements a bijection.
- `Rewards` (`rewards.dfy`) has the reward records, the slice labels and `Populate`.
- `Selection` (`selection.dfy`) has the weighted pick, the slice search and the target angle.
- `Animation` (`animation.dfy`) has the easing and interpolation of one frame.
- `Loader` (`loader.dfy`) is the component as a state machine:
  - `Init`;
  - `Spin`, and `Press` (the button as it reaches `Spin`);
  - one engine frame, `Tick`, and a run of frames, `Run`.
- `Int32` (`int32.dfy`) and `Decimal` (`decimal.dfy`) model C# `int` arithmetic and
  `int.ToString()`.
- `Options` (`options.dfy`) has the option type.

All randomness is passed in as parameters:

- the shuffle draws `ks`, where `ks[j]` is the value `Random.Range(0, n + 1)` returned on the
  j-th pass;
- the pick draw, in `[0.01, 1]`;
- the number of turns, 2 or 3;
- each frame's `Time.deltaTime`.

The colour parser is a parameter too. Single-precision floats are modelled as exact reals. The C#
`int` product of coins and multiplier wraps modulo 2^32 as it does in the program.

Three facts about the code shape the model:

- **The pick draw's range.** `Random.Range(0.01f, 1)` draws from [0.01, 1] (DataLoader.cs:116).
- **The shuffle's direction.** The shuffle is the in-place Fisher–Yates that walks from the last
  index down to index 1 (DataLoader.cs:100-108).
- **The rotation's start.** The rotation starts from the angle of the object that carries the
  component (`transform.eulerAngles.z`), not from `spinningWheel`'s. Which object that is belongs
  to the scene, not the code. The model assumes it is not the wheel, and keeps the two angles
  apart as `hostAngle` and `wheelAngle`.

Behaviours of the code that the model keeps and proves:

- **No matching slice.** The sought probability is the picked reward's, or 0 when nothing is
  picked (`Loader.Sought`). When no slice carries it, pressing the button disables it and
  nothing else happens. No coroutine starts, so the button stays disabled for good
  (`Loader.NoMatchLocksWheel`). On a populated wheel this needs an empty pick, because every
  picked reward has a slice (`Loader.PickedRewardHasSlice`).
- **An empty pick.** With non-negative probabilities, the pick is empty exactly when the
  probabilities sum to less than the draw
  (`Selection.NothingPickedIffTotalBelowDraw`). The previous multiplier is kept. The slice scan
  then looks for probability 0, so an empty pick still spins the wheel to the first slice that
  stores 0, such as a slice beyond the reward count or a reward of probability 0. The reveal then
  shows the old multiplier (`Loader.Spin`).
- **A second `Spin` while the wheel turns.** It retargets the running rotation and does not start
  another one (`Loader.Spin`).

## Model

| member | source | states |
|---|---|---|
| Int32.Mul | Assets/WheelOfFortune/Scripts/DataLoader.cs:170 | the product of two C# ints is congruent to the true product modulo 2^32 and lies in the int range; it equals the true product whenever that fits |
| Decimal.IntRoundTrip | Assets/WheelOfFortune/Scripts/DataLoader.cs:174 | the decimal text that `int.ToString()` produces for any integer parses back to the same integer, so the reward text identifies the reward |
| Decimal.IntToStringInjective | Assets/WheelOfFortune/Scripts/DataLoader.cs:174 | two different integers never render as the same decimal text |
| FisherYates.Steps | Assets/WheelOfFortune/Scripts/DataLoader.cs:100-108 | the swap passes keep the length and the multiset of items, never touch positions at or beyond the current bound, and put the drawn item `s[ks[0]]` at index n-1 |
| FisherYates.Shuffle | Assets/WheelOfFortune/Scripts/DataLoader.cs:96-111 | the shuffled list is a permutation of the input (same length, same multiset); lists of zero or one item come back unchanged |
| FisherYates.ShuffleList | Assets/WheelOfFortune/Scripts/DataLoader.cs:96-111 | the in-place loop runs on a fresh array copy, so the caller's list value is left as it was, and returns exactly the reference shuffle of the same draws, hence a permutation of its input |
| FisherYates.Unshuffle | Assets/WheelOfFortune/Scripts/DataLoader.cs:100-108 | for every rearrangement of the list there is a legal draw sequence (each draw in range for its pass) under which the shuffle produces it |
| FisherYates.ShuffleInjective | Assets/WheelOfFortune/Scripts/DataLoader.cs:100-108 | on a list of distinct items, two different legal draw sequences give two different arrangements, so every arrangement has exactly one draw sequence |
| FisherYates.ShuffleKeepsProjection | Assets/WheelOfFortune/Scripts/DataLoader.cs:96-111 | any field read from the items (probability, multiplier, colour) occurs as often in the shuffled list as in the original |
| Rewards.LabelRoundTrip | Assets/WheelOfFortune/Scripts/DataLoader.cs:87 | a slice label `"x" + multiplier` reads back as that multiplier |
| Rewards.Populate | Assets/WheelOfFortune/Scripts/DataLoader.cs:82-93 | slice i, for i below the number of rewards, shows the label, probability and (parsed) colour of the i-th shuffled item and keeps its angle; later slices are untouched |
| Rewards.PopulateColors | Assets/WheelOfFortune/Scripts/DataLoader.cs:88-91 | a slice takes its item's colour when the colour code parses and keeps its previous colour otherwise |
| Rewards.PopulateShowsEveryReward | Assets/WheelOfFortune/Scripts/DataLoader.cs:84-93 | when the wheel has one slice per reward, the slice probabilities and the slice multipliers are, as multisets, exactly the rewards' probabilities and multipliers |
| Rewards.PopulateShowsEachReward | Assets/WheelOfFortune/Scripts/DataLoader.cs:84-92 | every reward's probability appears on some slice after populating |
| Selection.PickFrom | Assets/WheelOfFortune/Scripts/DataLoader.cs:118-127 | subtracting probabilities from index i on stops at the first index where the running sum reaches the remaining draw, and finds nothing exactly when every partial sum stays below it |
| Selection.Pick | Assets/WheelOfFortune/Scripts/DataLoader.cs:116-128 | a picked index is the first whose prefix sum of probabilities reaches the draw; no pick means every prefix sum is below the draw |
| Selection.PickIsFirstReach | Assets/WheelOfFortune/Scripts/DataLoader.cs:118-127 | index j is picked if and only if it is the first index whose prefix sum reaches the draw |
| Selection.PickedIsEveryFirstReach | Assets/WheelOfFortune/Scripts/DataLoader.cs:118-127 | any reward that is first to reach the draw is the one the loop picks, so that reward is unique |
| Selection.NothingPickedIffTotalBelowDraw | Assets/WheelOfFortune/Scripts/DataLoader.cs:117-128 | with non-negative probabilities and a positive draw, nothing is picked if and only if the probabilities sum to less than the draw |
| Selection.SingleCertainRewardAlwaysWins | Assets/WheelOfFortune/Scripts/DataLoader.cs:116-127 | a single reward of probability 1 is picked by every draw the game can make |
| Selection.ThreeBucketExample | Assets/WheelOfFortune/Scripts/DataLoader.cs:116-127 | with probabilities 0.2, 0.3 and 0.5 the draws 0.1, 0.35 and 0.9 pick the first, second and third reward |
| Selection.FindSlice | Assets/WheelOfFortune/Scripts/DataLoader.cs:129-132 | the slice found is the first whose probability equals the sought one; no slice is found exactly when none carries it |
| Selection.TargetAngle | Assets/WheelOfFortune/Scripts/DataLoader.cs:133-134 | target plus slice angle plus the 45-degree offset is a whole number (cycles + 1) of turns, so the slice ends under the pointer; for slice angles in [0, 360) the target lies between cycles·360 − 45 and (cycles + 1)·360 − 45 |
| Animation.EaseInUnitInterval | Assets/WheelOfFortune/Scripts/DataLoader.cs:153 | the ease-out `1 - (1 - t)^2` maps [0, 1] into [0, 1] with 0 at 0 and 1 at 1 |
| Animation.EaseMonotone | Assets/WheelOfFortune/Scripts/DataLoader.cs:153 | the ease-out never decreases on [0, 1] |
| Animation.Lerp | Assets/WheelOfFortune/Scripts/DataLoader.cs:154 | the interpolated angle lies between the two endpoints, equals the start for t at or below 0 and the end for t at or above 1 |
| Animation.LerpMonotone | Assets/WheelOfFortune/Scripts/DataLoader.cs:154 | when the target is at least the start, a later parameter never gives a smaller angle |
| Animation.ProgressMonotone | Assets/WheelOfFortune/Scripts/DataLoader.cs:152 | the eased progress of the clamped ratio `elapsed / duration` never decreases as elapsed time grows |
| Animation.FrameAngle | Assets/WheelOfFortune/Scripts/DataLoader.cs:151-154 | the angle of a frame lies between the initial and target angles and equals the target once the elapsed time reaches the spin time |
| Animation.FrameAngleMonotone | Assets/WheelOfFortune/Scripts/DataLoader.cs:149-156 | for a forward target, the wheel angle never moves backwards from one frame to a later one |
| Loader.Init | Assets/WheelOfFortune/Scripts/DataLoader.cs:60-80 | after loading, the texts are empty, the coin logo is hidden, nothing rotates and the invariant holds; a missing data file leaves the wheel untouched and unloaded, a present one stores coins and rewards and populates the wheel from them |
| Loader.Finish | Assets/WheelOfFortune/Scripts/DataLoader.cs:161-171 | the wheel snaps to the target, rotation stops with elapsed time reset, the reveal starts with reward coins × multiplier (wrapped), and the multiplier text reads back as the multiplier |
| Loader.Resume | Assets/WheelOfFortune/Scripts/DataLoader.cs:149-165 | one frame of rotation advances elapsed time by the frame's delta and sets the wheel to the eased angle `FrameAngle(initial, target, elapsed + dt, spinTime)`, which lies between start and target, or, once the spin time is reached, finishes; target, rewards and button are untouched |
| Loader.Sought | Assets/WheelOfFortune/Scripts/DataLoader.cs:117-124 | the probability the slice scan looks for is that of the first reward whose prefix sum reaches the draw, and 0 when the draw exceeds every prefix sum |
| Loader.Spin | Assets/WheelOfFortune/Scripts/DataLoader.cs:113-142 | the button is disabled; the multiplier becomes the picked reward's and stays when nothing is picked; with no matching slice nothing moves; a match sets the target for the first matching slice, retargets a running rotation without a second one, or starts a new rotation from the loader's own angle, with the wheel already on the eased angle after the first frame's delta; with a spin time of 0 or less the wheel snaps to the target at once and the reveal starts |
| Loader.Press | Assets/WheelOfFortune/Scripts/DataLoader.cs:113-115 | pressing keeps the reward loop's invariant and is ignored while the wheel turns or the reveal runs, because the button is then disabled |
| Loader.RevealStep | Assets/WheelOfFortune/Scripts/DataLoader.cs:168-181 | after one second the coin logo and the reward text appear, after four more the texts and logo clear, the button is re-enabled and the wheel is repopulated; rotation state is untouched |
| Loader.Tick | Assets/WheelOfFortune/Scripts/DataLoader.cs:144-181 | one engine frame keeps the invariant; a resting wheel does not move, a turning wheel advances by the frame's delta or stops at the target |
| Loader.FramesNeverTurnBack | Assets/WheelOfFortune/Scripts/DataLoader.cs:149-161 | while the wheel turns towards a target ahead of its start, the angle after a frame is never below the angle after the frame before, including the final snap to the target |
| Loader.Run | Assets/WheelOfFortune/Scripts/DataLoader.cs:144-181 | any run of frames keeps the invariant, the rewards, the target and the spin time |
| Loader.RunKeepsWheelStill | Assets/WheelOfFortune/Scripts/DataLoader.cs:135-138 | without a press, a wheel at rest stays at rest at the same angle whatever frames pass |
| Loader.RunReachesTarget | Assets/WheelOfFortune/Scripts/DataLoader.cs:149-163 | once the frame deltas add up to the spin time, the next frame leaves the wheel stopped exactly at the target angle |
| Loader.PickedRewardHasSlice | Assets/WheelOfFortune/Scripts/DataLoader.cs:129-132 | on a populated wheel, whatever reward is picked some slice carries its probability |
| Loader.SpinLandsOnPickedSlice | Assets/WheelOfFortune/Scripts/DataLoader.cs:116-163 | a press that picks a reward ends, after enough frames, with the wheel stopped at the angle that brings the first slice of that reward's probability under the pointer |
| Loader.RunAtRest | Assets/WheelOfFortune/Scripts/DataLoader.cs:135-138 | with nothing rotating and no reveal pending, frames change nothing |
| Loader.NoMatchLocksWheel | Assets/WheelOfFortune/Scripts/DataLoader.cs:115-141 | when no slice carries the sought probability, nothing is picked, the press only disables the button, and the button stays disabled and the wheel still through any later frames |
| Loader.PickedSpinTurns | Assets/WheelOfFortune/Scripts/DataLoader.cs:129-138 | on a loaded wheel whose button is enabled, a draw that picks a reward always starts the rotation, because the picked reward has a slice and no rotation is running yet |
| Loader.SingleRewardExample | Assets/WheelOfFortune/Scripts/DataLoader.cs:116-174 | with 100 coins and a single ×2 reward of probability 1 on a wheel ready to spin, every spin sets multiplier 2 and turns the wheel; when it stops, the reveal starts with reward 200, and one second later the reward text it shows is "200" |

## Left out

- Reading `Resources/data` and the JSON deserialisation are left out. `Init` receives the
  deserialised table, or `None` when the file is missing. The error log for a missing file is
  left out.
- `ColorUtility.TryParseHtmlString` is a parameter `parse`, because its format table belongs to
  the engine.
- The scene objects are fields of the state. These are the slice texts, colours and angles, the
  button's `interactable` flag, the two texts and the coin logo. Rendering is not modelled.
- `Debug.Log` calls are left out, because they only produce logging.
- Coroutine scheduling is simplified:
  - each frame's `Tick` resumes whichever coroutine is running; under the invariant `Inv` at
    most one is;
  - `WaitForSeconds` is modelled as the sum of the frame deltas passed since the wait began;
  - the first pass of the rotation loop runs inside `Spin` with the first frame's delta.
- A direct `Spin` during a reveal is outside the model. In the program it can start a second
  rotation and later a second reveal coroutine, because `Spin` itself has no guard
  (DataLoader.cs:113-141). In the model such a call leaves the invariant `Inv`, which `Tick`
  requires, so no frame follows it. Through the button this cannot happen, because the button
  is disabled during a reveal (`Loader.Press`).
- Uniformity of the shuffle is a statement about probabilities. The model proves the bijection
  between draw sequences and arrangements instead.
- Floating-point rounding is not modelled, because angles, probabilities and times are exact
  reals. A consequence is that the exact equality test between a slice's probability and the
  picked one is modelled as real equality.
- The field `rewardAmount` is never read or written by the code, so it is not modelled.
- Rewards.Populate: requires at least as many slices as rewards. With fewer slices the program
  throws an index exception, and the model does not include that error path.
- Loader.Init: the button is assumed interactable at load. Its initial state is a scene
  setting, and the code does not set it.
- Loader.Spin: on a wheel whose data failed to load, the program throws a null-reference
  exception right after disabling the button. The model stops at that point: the button is off
  and nothing else changes.
- Loader.Spin: `Random.Range(0.01f, 1)` on floats is modelled as any real draw in [0.01, 1].
  `Random.Range(2, 4)` is modelled as 2 or 3.
- Loader.Spin: assumes the component is not attached to the wheel object, because the scene is
  not part of the code. The start angle `hostAngle` is any real and never changes. If the
  component were on the wheel, each spin would start from the wheel's last angle, reduced to
  [0, 360) as `eulerAngles` reports it; that reduction is not modelled.
- Decimal.IntToString: `int.ToString()` formats with the current culture. The model always
  writes the culture's negative sign as '-'. Negative output is reachable, because the
  coins × multiplier product wraps.
