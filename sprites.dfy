/**
 * The dSprites grid world (`SpritesEnvironment`), without its dataset: the
 * latent state of the current image (`state`, six latent values of which
 * 4 and 5 are the column and the row on a 32×32 grid), the index of that
 * image in the dataset, the frame counter, the last reward, the side the
 * reward is on and whether the reward hint is shown.
 *
 * Inside a group of 1024 images the dataset orders images column first,
 * then row, so moving one row changes the index by 1 and moving one column
 * changes it by 32.
 */
module Sprites {

  /** The last row and column of the 32×32 grid. */
  const Last := 31

  datatype Difficulty = Easy | Hard

  /** The configuration read from the environment's description. */
  datatype Config = Config(repeats: nat, difficulty: Difficulty, epistemic: bool, maxTrialLength: int)

  datatype State = State(latents: seq<int>, index: int, frameId: int, lastR: real, rewardOnTheRight: bool, hint: bool)

  /** What `step` returns besides the frame; `Exit` is the process exit on an invalid action. */
  datatype Outcome = Exit | Stepped(reward: real, done: bool)

  /** A dSprites latent state: colour, shape, scale, orientation, column, row. */
  predicate StateOk(s: State)
  {
    |s.latents| == 6
  }

  function X(s: State): int
    requires StateOk(s)
  {
    s.latents[4]
  }

  function Y(s: State): int
    requires StateOk(s)
  {
    s.latents[5]
  }

  function WithX(s: State, v: int): (r: State)
    requires StateOk(s)
    ensures StateOk(r)
  {
    s.(latents := s.latents[4 := v])
  }

  function WithY(s: State, v: int): (r: State)
    requires StateOk(s)
    ensures StateOk(r)
  {
    s.(latents := s.latents[5 := v])
  }

  /** The square (shape 0) is rewarded on the left, the other shapes on the right. */
  predicate IsSquare(s: State)
    requires StateOk(s)
  {
    (s.latents[1] as real) < 0.5
  }

  // ---------------------------------------------------------------------
  // Multi-index
  // ---------------------------------------------------------------------

  function Dot(digits: seq<int>, bases: seq<nat>): int
    requires |digits| == |bases|
  {
    if |digits| == 0 then 0 else Dot(digits[..|digits| - 1], bases[..|bases| - 1]) + digits[|digits| - 1] * bases[|bases| - 1]
  }

  lemma DotAppend(digits: seq<int>, bases: seq<nat>, d: int, b: nat)
    requires |digits| == |bases|
    ensures Dot(digits + [d], bases + [b]) == Dot(digits, bases) + d * b
  {
    assert (digits + [d])[..|digits|] == digits;
    assert (bases + [b])[..|bases|] == bases;
  }

  /** Euclidean division of a natural number by a positive one. */
  lemma DivMod(a: nat, b: nat)
    requires b > 0
    ensures (a / b) * b + a % b == a && 0 <= a % b < b
  {
  }

  /**
   * `to_multi_index`: one digit per base, each the quotient of what is left
   * of the index by that base. The digits weighted by the bases, plus what
   * is left, give the index back; with a last base of 1 nothing is left.
   */
  method ToMultiIndex(index: nat, bases: seq<nat>) returns (multiIndex: seq<nat>)
    requires forall i :: 0 <= i < |bases| ==> bases[i] > 0
    ensures |multiIndex| == |bases|
    ensures |bases| > 0 ==> 0 <= index - Dot(multiIndex, bases) < bases[|bases| - 1]
    ensures |bases| > 0 && bases[|bases| - 1] == 1 ==> Dot(multiIndex, bases) == index
    ensures forall i :: 1 <= i < |bases| ==> multiIndex[i] * bases[i] < bases[i - 1]
  {
    multiIndex := [];
    var left := index;
    var i := 0;
    while i <= |bases| - 1
      invariant 0 <= i <= |bases| && |multiIndex| == i
      invariant Dot(multiIndex, bases[..i]) + left == index
      invariant i > 0 ==> left < bases[i - 1]
      invariant forall k :: 1 <= k < i ==> multiIndex[k] * bases[k] < bases[k - 1]
    {
      var b := bases[i];
      var digit := left / b;
      var rest := left % b;
      DivMod(left, b);
      DotAppend(multiIndex, bases[..i], digit, b);
      assert bases[..i + 1] == bases[..i] + [b];
      multiIndex := multiIndex + [digit];
      left := rest;
      i := i + 1;
    }
    assert bases[..|bases|] == bases;
  }

  // ---------------------------------------------------------------------
  // Clamping and rewards
  // ---------------------------------------------------------------------

  function Clamp(v: int): (r: int)
    ensures 0 <= r <= Last
    ensures 0 <= v <= Last ==> r == v
  {
    var lifted := if v < 0 then 0 else v;
    if lifted > Last then Last else lifted
  }

  /** `ensure_position_is_valid`: column and row brought into `[0, 31]`; nothing else changes. */
  function Clamped(s: State): (r: State)
    requires StateOk(s)
    ensures StateOk(r) && 0 <= X(r) <= Last && 0 <= Y(r) <= Last
    ensures 0 <= X(s) <= Last && 0 <= Y(s) <= Last ==> r == s
    ensures forall i :: 0 <= i < 4 ==> r.latents[i] == s.latents[i]
    ensures r.index == s.index && r.frameId == s.frameId && r.lastR == s.lastR
    ensures r.rewardOnTheRight == s.rewardOnTheRight && r.hint == s.hint
  {
    var r := WithY(WithX(s, Clamp(X(s))), Clamp(Y(s)));
    assert 0 <= X(s) <= Last && 0 <= Y(s) <= Last ==> r.latents == s.latents;
    r
  }

  /** `compute_reward_on_the_left`. */
  function RewardOnTheLeft(x: int): real
  {
    if x > 15 then (15.0 - x as real) / 16.0 else (16.0 - x as real) / 16.0
  }

  /** `compute_reward_on_the_right`. */
  function RewardOnTheRight(x: int): real
  {
    if x > 15 then (x as real - 15.0) / 16.0 else (x as real - 16.0) / 16.0
  }

  /**
   * On the grid the side rewards lie in `[-1, 1]`; the left one is positive
   * exactly on columns 0..15 and the right one exactly on columns 16..31.
   */
  lemma SideRewardBounds(x: int)
    requires 0 <= x <= Last
    ensures -1.0 <= RewardOnTheLeft(x) <= 1.0 && (RewardOnTheLeft(x) > 0.0 <==> x <= 15)
    ensures -1.0 <= RewardOnTheRight(x) <= 1.0 && (RewardOnTheRight(x) > 0.0 <==> x > 15)
  {
  }

  /** `compute_hard_reward`: clamp, then the left reward for a square and the right reward otherwise. */
  function HardReward(s: State): (State, real)
    requires StateOk(s)
  {
    var v := Clamped(s);
    (v, if IsSquare(v) then RewardOnTheLeft(X(v)) else RewardOnTheRight(X(v)))
  }

  /** `compute_hard_reward_epistemic`: clamp, then the reward of the side the environment drew. */
  function HardRewardEpistemic(s: State): (State, real)
    requires StateOk(s)
  {
    var v := Clamped(s);
    (v, if s.rewardOnTheRight then RewardOnTheRight(X(v)) else RewardOnTheLeft(X(v)))
  }

  /** The corner a shape must reach in the easy task: bottom-left for a square, bottom-right otherwise. */
  function Target(s: State): (int, int)
    requires StateOk(s)
  {
    if IsSquare(s) then (0, Last) else (Last, Last)
  }

  function Abs(v: int): nat
  {
    if v < 0 then -v else v
  }

  /**
   * `compute_easy_reward`: clamp, then `-1 + (62 - |dx| - |dy|) / 31` for
   * the distance to the target corner; the trial ends on the corner.
   */
  function EasyReward(s: State): (State, bool, real)
    requires StateOk(s)
  {
    var v := Clamped(s);
    var (tx, ty) := Target(v);
    (v, X(v) == tx && Y(v) == ty, -1.0 + (62 - Abs(tx - X(v)) - Abs(ty - Y(v))) as real / 31.0)
  }

  /** The easy reward lies in `[-1, 1]`, is 1 exactly on the target corner, and ends the trial exactly there. */
  lemma EasyRewardBounds(s: State)
    requires StateOk(s)
    ensures var (v, done, r) := EasyReward(s);
      && -1.0 <= r <= 1.0
      && (r == 1.0 <==> (X(v), Y(v)) == Target(s))
      && (done <==> (X(v), Y(v)) == Target(s))
  {
    var v := Clamped(s);
    assert Target(v) == Target(s);
  }

  // ---------------------------------------------------------------------
  // Actions
  // ---------------------------------------------------------------------

  /**
   * `down`: a negative row is lifted to 0 and grows by one; the index
   * follows while the row stays on the grid. In the hard task, reaching row
   * 32 ends the trial with the hard reward (epistemic or not).
   */
  function DownEffect(s: State, c: Config): (State, bool)
    requires StateOk(s)
  {
    var y := (if Y(s) < 0 then 0 else Y(s)) + 1;
    var moved := WithY(s, y).(index := if y <= Last then s.index + 1 else s.index);
    if y >= 32 && c.difficulty == Hard && !c.epistemic then
      var (v, r) := HardReward(moved); (v.(lastR := r), true)
    else if y >= 32 && c.difficulty == Hard && c.epistemic then
      var (v, r) := HardRewardEpistemic(moved); (v.(lastR := r), true)
    else (moved, false)
  }

  /** `up`: a row past the edge is lowered to 31 and shrinks by one; reaching row 0 or above shows the hint. */
  function UpEffect(s: State): (State, bool)
    requires StateOk(s)
  {
    var y := (if Y(s) > Last then Last else Y(s)) - 1;
    (WithY(s, y).(index := if y >= 0 then s.index - 1 else s.index, hint := s.hint || y <= 0), false)
  }

  /**
   * `right`: a negative column is lifted to 0 and grows by one; the index
   * moves by 32 while the column stays on the grid. In the easy epistemic
   * task, reaching column 32 ends the trial: +1 if the reward is on the
   * right, -1 otherwise.
   */
  function RightEffect(s: State, c: Config): (State, bool)
    requires StateOk(s)
  {
    var x := (if X(s) < 0 then 0 else X(s)) + 1;
    var moved := WithX(s, x).(index := if x <= Last then s.index + 32 else s.index);
    if x >= 32 && c.difficulty == Easy && c.epistemic then
      (moved.(lastR := if s.rewardOnTheRight then 1.0 else -1.0), true)
    else (moved, false)
  }

  /** `left`: the mirror image of `right`, ending the easy epistemic trial below column 0. */
  function LeftEffect(s: State, c: Config): (State, bool)
    requires StateOk(s)
  {
    var x := (if X(s) > Last then Last else X(s)) - 1;
    var moved := WithX(s, x).(index := if x >= 0 then s.index - 32 else s.index);
    if x < 0 && c.difficulty == Easy && c.epistemic then
      (moved.(lastR := if !s.rewardOnTheRight then 1.0 else -1.0), true)
    else (moved, false)
  }

  /** The action table `[down, up, left, right, idle]`. */
  function Act(s: State, c: Config, action: nat): (State, bool)
    requires StateOk(s) && action <= 4
  {
    match action
    case 0 => DownEffect(s, c)
    case 1 => UpEffect(s)
    case 2 => LeftEffect(s, c)
    case 3 => RightEffect(s, c)
    case _ => (s, false)
  }

  /** One repetition inside `step`: the action, whose outcome the easy reward replaces in the easy non-epistemic task. */
  function Once(s: State, c: Config, action: nat): (r: (State, bool))
    requires StateOk(s) && action <= 4
    ensures StateOk(r.0)
  {
    var (t, done) := Act(s, c, action);
    if c.difficulty == Easy && !c.epistemic then
      var (v, d, reward) := EasyReward(t); (v.(lastR := reward), d)
    else (t, done)
  }

  /** Up to `k` repetitions, stopping at the first that ends the trial. */
  function Repeat(s: State, c: Config, action: nat, k: nat): (r: (State, bool))
    requires StateOk(s) && action <= 4
    ensures StateOk(r.0)
    decreases k
  {
    if k == 0 then (s, false)
    else
      var (t, done) := Once(s, c, action);
      if done then (t, true) else Repeat(t, c, action, k - 1)
  }

  /**
   * `step`: count the frame, then run the action up to `repeats` times (an
   * action outside 0..4 exits, but only once a repetition runs); end with
   * the reward of a repetition that ended the trial, or -1 once the frame
   * budget is used up, or the last reward.
   */
  /**
   * The repetition loop of `step`: nothing when `repeats` is 0; otherwise an
   * action outside 0..4 exits before anything moves, and a valid one runs
   * up to `repeats` times. The result says whether the process exited and
   * whether the trial ended.
   */
  function Run(s: State, c: Config, action: int): (r: (State, bool, bool))
    requires StateOk(s)
    ensures StateOk(r.0)
  {
    if c.repeats == 0 then (s, false, false)
    else if action < 0 || action > 4 then (s, true, false)
    else var (t, done) := Repeat(s, c, action, c.repeats); (t, false, done)
  }

  /**
   * `step`: count the frame, run the repetitions, then end with the reward
   * of a repetition that ended the trial, or -1 once the frame budget is
   * used up, or the last reward.
   */
  function StepEffect(s: State, c: Config, action: int): (State, Outcome)
    requires StateOk(s)
  {
    var (t, exited, done) := Run(s.(frameId := s.frameId + 1), c, action);
    if exited then (t, Exit)
    else if done then (t, Stepped(t.lastR, true))
    else if t.frameId >= c.maxTrialLength then (t, Stepped(-1.0, true))
    else (t, Stepped(t.lastR, false))
  }

  // ---------------------------------------------------------------------
  // Properties
  // ---------------------------------------------------------------------

  /**
   * The image index always points at the clamped position: every action
   * keeps `index - 32·clamp(column) - clamp(row)` unchanged, however far
   * off the grid the position has been pushed.
   */
  function Offset(s: State): int
    requires StateOk(s)
  {
    s.index - 32 * Clamp(X(s)) - Clamp(Y(s))
  }

  lemma DownKeepsOffset(s: State, c: Config)
    requires StateOk(s)
    ensures Offset(DownEffect(s, c).0) == Offset(s)
  {
    var y := (if Y(s) < 0 then 0 else Y(s)) + 1;
    var moved := WithY(s, y).(index := if y <= Last then s.index + 1 else s.index);
    assert X(moved) == X(s) && Y(moved) == y;
    assert Offset(moved) == Offset(s);
  }

  lemma UpKeepsOffset(s: State)
    requires StateOk(s)
    ensures Offset(UpEffect(s).0) == Offset(s)
  {
    var t := UpEffect(s).0;
    assert X(t) == X(s);
  }

  lemma RightKeepsOffset(s: State, c: Config)
    requires StateOk(s)
    ensures Offset(RightEffect(s, c).0) == Offset(s)
  {
    var x := (if X(s) < 0 then 0 else X(s)) + 1;
    var moved := WithX(s, x).(index := if x <= Last then s.index + 32 else s.index);
    assert X(moved) == x && Y(moved) == Y(s);
  }

  lemma LeftKeepsOffset(s: State, c: Config)
    requires StateOk(s)
    ensures Offset(LeftEffect(s, c).0) == Offset(s)
  {
    var x := (if X(s) > Last then Last else X(s)) - 1;
    var moved := WithX(s, x).(index := if x >= 0 then s.index - 32 else s.index);
    assert X(moved) == x && Y(moved) == Y(s);
  }

  /** One repetition keeps the image index on the clamped position and leaves the frame counter alone. */
  lemma ActKeepsOffset(s: State, c: Config, action: nat)
    requires StateOk(s) && action <= 4
    ensures Offset(Act(s, c, action).0) == Offset(s) && Act(s, c, action).0.frameId == s.frameId
  {
    match action
    case 0 => DownKeepsOffset(s, c);
    case 1 => UpKeepsOffset(s);
    case 2 => LeftKeepsOffset(s, c);
    case 3 => RightKeepsOffset(s, c);
    case _ =>
  }

  lemma OnceKeepsOffset(s: State, c: Config, action: nat)
    requires StateOk(s) && action <= 4
    ensures Offset(Once(s, c, action).0) == Offset(s) && Once(s, c, action).0.frameId == s.frameId
  {
    ActKeepsOffset(s, c, action);
    var t := Act(s, c, action).0;
    assert Offset(Clamped(t)) == Offset(t);
  }

  lemma {:induction false} RepeatKeepsOffset(s: State, c: Config, action: nat, k: nat)
    requires StateOk(s) && action <= 4
    ensures Offset(Repeat(s, c, action, k).0) == Offset(s)
    ensures Repeat(s, c, action, k).0.frameId == s.frameId
    decreases k
  {
    if k > 0 {
      OnceKeepsOffset(s, c, action);
      var (t, done) := Once(s, c, action);
      if !done {
        RepeatKeepsOffset(t, c, action, k - 1);
      }
    }
  }

  /**
   * A step counts exactly one frame, keeps the image index on the clamped
   * position, exits exactly on an invalid action that gets to run, and
   * reports -1 when the frame budget runs out without the action ending
   * the trial.
   */
  lemma StepProperties(s: State, c: Config, action: int)
    requires StateOk(s)
    ensures var (t, o) := StepEffect(s, c, action);
      && StateOk(t) && t.frameId == s.frameId + 1 && Offset(t) == Offset(s)
      && (o.Exit? <==> c.repeats > 0 && (action < 0 || action > 4))
      && (o.Stepped? && !o.done ==> t.frameId < c.maxTrialLength && o.reward == t.lastR)
      && (o.Stepped? && o.done && o.reward != t.lastR ==> t.frameId >= c.maxTrialLength && o.reward == -1.0)
  {
    if c.repeats > 0 && 0 <= action <= 4 {
      RepeatKeepsOffset(s.(frameId := s.frameId + 1), c, action, c.repeats);
    }
  }

  /** `down` and `up` move the row by one after clamping it to the edge, and the index moves with it only on the grid. */
  lemma RowMoves(s: State, c: Config)
    requires StateOk(s)
    ensures var y := (if Y(s) < 0 then 0 else Y(s)) + 1;
      var t := DownEffect(s, c).0;
      (!DownEffect(s, c).1 ==> Y(t) == y) && t.index == if y <= Last then s.index + 1 else s.index
    ensures var y := (if Y(s) > Last then Last else Y(s)) - 1;
      var t := UpEffect(s).0;
      Y(t) == y && t.index == (if y >= 0 then s.index - 1 else s.index) && (t.hint <==> s.hint || y <= 0)
  {
  }

  /** `right` and `left` move the column by one after clamping it to the edge; the index moves by 32 only on the grid. */
  lemma ColumnMoves(s: State, c: Config)
    requires StateOk(s)
    ensures var x := (if X(s) < 0 then 0 else X(s)) + 1;
      var t := RightEffect(s, c).0;
      X(t) == x && t.index == if x <= Last then s.index + 32 else s.index
    ensures var x := (if X(s) > Last then Last else X(s)) - 1;
      var t := LeftEffect(s, c).0;
      X(t) == x && t.index == if x >= 0 then s.index - 32 else s.index
  {
  }

  /**
   * In the easy epistemic task, crossing the right edge gives +1 when the
   * reward is on the right and -1 otherwise; crossing the left edge is the
   * mirror image. Nothing else ends such a trial.
   */
  lemma EasyEpistemicCrossing(s: State, c: Config)
    requires StateOk(s) && c.difficulty == Easy && c.epistemic
    ensures RightEffect(s, c).1 <==> (if X(s) < 0 then 0 else X(s)) + 1 >= 32
    ensures RightEffect(s, c).1 ==> RightEffect(s, c).0.lastR == if s.rewardOnTheRight then 1.0 else -1.0
    ensures LeftEffect(s, c).1 <==> (if X(s) > Last then Last else X(s)) - 1 < 0
    ensures LeftEffect(s, c).1 ==> LeftEffect(s, c).0.lastR == if s.rewardOnTheRight then -1.0 else 1.0
    ensures !DownEffect(s, c).1 && !UpEffect(s).1
  {
  }

  /** Every reward the hard task hands out lies in `[-1, 1]`. */
  lemma HardRewardsBounded(s: State)
    requires StateOk(s)
    ensures -1.0 <= HardReward(s).1 <= 1.0 && -1.0 <= HardRewardEpistemic(s).1 <= 1.0
  {
    SideRewardBounds(X(Clamped(s)));
  }

  // ---------------------------------------------------------------------
  // The environment object
  // ---------------------------------------------------------------------

  /** The environment as the source keeps it: a latent-state array and counters updated in place. */
  class Environment {
    const repeats: nat
    const difficulty: Difficulty
    const epistemic: bool
    const maxTrialLength: int
    var state: array<int>
    var index: int
    var frameId: int
    var lastR: real
    var rewardOnTheRight: bool
    var displayRewardHint: bool

    function Settings(): Config
    {
      Config(repeats, difficulty, epistemic, maxTrialLength)
    }

    function Snapshot(): State
      reads this, state
    {
      State(state[..], index, frameId, lastR, rewardOnTheRight, displayRewardHint)
    }

    predicate Valid()
      reads this
    {
      state.Length == 6
    }

    /** The constructor, ending with `reset` on a drawn image (index and latent state given here). */
    constructor (repeats: nat, difficulty: Difficulty, epistemic: bool, maxTrialLength: int, i: int, latents: seq<int>, right: bool)
      requires |latents| == 6
      ensures Valid() && Settings() == Config(repeats, difficulty, epistemic, maxTrialLength)
      ensures Snapshot() == State(latents, i, 0, 0.0, right, false)
    {
      this.repeats := repeats;
      this.difficulty := difficulty;
      this.epistemic := epistemic;
      this.maxTrialLength := maxTrialLength;
      state := new int[6];
      new;
      Reset(i, latents, right);
    }

    /** `reset`: a copy of the drawn image's latent state, counters cleared, the hint hidden. */
    method Reset(i: int, latents: seq<int>, right: bool)
      requires |latents| == 6
      modifies this
      ensures Valid() && fresh(state)
      ensures Snapshot() == State(latents, i, 0, 0.0, right, false)
    {
      index := i;
      state := new int[6](k requires 0 <= k < 6 => latents[k]);
      lastR := 0.0;
      frameId := 0;
      rewardOnTheRight := right;
      displayRewardHint := false;
    }

    method EnsurePositionIsValid()
      requires Valid()
      modifies state
      ensures Snapshot() == Clamped(old(Snapshot()))
    {
      if state[4] < 0 {
        state[4] := 0;
      }
      if state[4] > Last {
        state[4] := Last;
      }
      if state[5] < 0 {
        state[5] := 0;
      }
      if state[5] > Last {
        state[5] := Last;
      }
    }

    method ComputeHardReward() returns (r: real)
      requires Valid()
      modifies state
      ensures (Snapshot(), r) == HardReward(old(Snapshot()))
    {
      EnsurePositionIsValid();
      if (state[1] as real) < 0.5 {
        r := RewardOnTheLeft(state[4]);
      } else {
        r := RewardOnTheRight(state[4]);
      }
    }

    method ComputeHardRewardEpistemic() returns (r: real)
      requires Valid()
      modifies state
      ensures (Snapshot(), r) == HardRewardEpistemic(old(Snapshot()))
    {
      EnsurePositionIsValid();
      if rewardOnTheRight {
        r := RewardOnTheRight(state[4]);
      } else {
        r := RewardOnTheLeft(state[4]);
      }
    }

    method ComputeEasyReward() returns (done: bool, r: real)
      requires Valid()
      modifies state
      ensures (Snapshot(), done, r) == EasyReward(old(Snapshot()))
    {
      EnsurePositionIsValid();
      var tx, ty := if (state[1] as real) < 0.5 then 0 else Last, Last;
      r := -1.0 + (62 - Abs(tx - state[4]) - Abs(ty - state[5])) as real / 31.0;
      done := state[4] == tx && state[5] == ty;
    }

    method Down() returns (done: bool)
      requires Valid()
      modifies this, state
      ensures state == old(state) && (Snapshot(), done) == DownEffect(old(Snapshot()), Settings())
    {
      ghost var s0 := Snapshot();
      if state[5] < 0 {
        state[5] := 0;
      }
      state[5] := state[5] + 1;
      if state[5] <= Last {
        index := index + 1;
      }
      assert state[..] == s0.latents[5 := state[5]];
      if state[5] >= 32 && difficulty == Hard && !epistemic {
        lastR := ComputeHardReward();
        return true;
      }
      if state[5] >= 32 && difficulty == Hard && epistemic {
        lastR := ComputeHardRewardEpistemic();
        return true;
      }
      return false;
    }

    method Up() returns (done: bool)
      requires Valid()
      modifies this, state
      ensures state == old(state) && (Snapshot(), done) == UpEffect(old(Snapshot()))
    {
      ghost var s0 := Snapshot();
      if state[5] > Last {
        state[5] := Last;
      }
      state[5] := state[5] - 1;
      assert state[..] == s0.latents[5 := state[5]];
      if state[5] >= 0 {
        index := index - 1;
      }
      if state[5] <= 0 {
        displayRewardHint := true;
      }
      return false;
    }

    method Right() returns (done: bool)
      requires Valid()
      modifies this, state
      ensures state == old(state) && (Snapshot(), done) == RightEffect(old(Snapshot()), Settings())
    {
      ghost var s0 := Snapshot();
      if state[4] < 0 {
        state[4] := 0;
      }
      state[4] := state[4] + 1;
      assert state[..] == s0.latents[4 := state[4]];
      if state[4] <= Last {
        index := index + 32;
      }
      if state[4] >= 32 && difficulty == Easy && epistemic {
        lastR := if rewardOnTheRight then 1.0 else -1.0;
        return true;
      }
      return false;
    }

    method Left() returns (done: bool)
      requires Valid()
      modifies this, state
      ensures state == old(state) && (Snapshot(), done) == LeftEffect(old(Snapshot()), Settings())
    {
      ghost var s0 := Snapshot();
      if state[4] > Last {
        state[4] := Last;
      }
      state[4] := state[4] - 1;
      assert state[..] == s0.latents[4 := state[4]];
      if state[4] >= 0 {
        index := index - 32;
      }
      if state[4] < 0 && difficulty == Easy && epistemic {
        lastR := if !rewardOnTheRight then 1.0 else -1.0;
        return true;
      }
      return false;
    }

    /** One repetition of the loop body of `step`, for a valid action. */
    method RunOnce(action: nat) returns (done: bool)
      requires Valid() && action <= 4
      modifies this, state
      ensures state == old(state) && (Snapshot(), done) == Once(old(Snapshot()), Settings(), action)
    {
      if action == 0 {
        done := Down();
      } else if action == 1 {
        done := Up();
      } else if action == 2 {
        done := Left();
      } else if action == 3 {
        done := Right();
      } else {
        done := false;
      }
      if difficulty == Easy && !epistemic {
        done, lastR := ComputeEasyReward();
      }
    }

    /** The repetition loop of `step`, stopping at an exit or at the first repetition that ends the trial. */
    method Repetitions(action: int) returns (exited: bool, done: bool)
      requires Valid()
      modifies this, state
      ensures state == old(state) && (Snapshot(), exited, done) == Run(old(Snapshot()), Settings(), action)
    {
      ghost var start := Snapshot();
      ghost var cfg := Settings();
      exited, done := false, false;
      var i := 0;
      while i < repeats && !exited && !done
        invariant 0 <= i <= repeats && state == old(state) && Valid()
        invariant exited ==> i == 0 < repeats && (action < 0 || action > 4) && Snapshot() == start && !done
        invariant i == 0 ==> Snapshot() == start && !done
        invariant i > 0 ==> 0 <= action <= 4 && if done then (Snapshot(), true) == Repeat(start, cfg, action, repeats)
          else Repeat(Snapshot(), cfg, action, repeats - i) == Repeat(start, cfg, action, repeats)
        decreases repeats - i, if exited then 0 else 1
      {
        if action < 0 || action > 4 {
          exited := true;
        } else {
          done := RunOnce(action);
          i := i + 1;
        }
      }
    }

    /** `step`, without the frame (drawn from the dataset, which is not part of this model). */
    method Step(action: int) returns (outcome: Outcome)
      requires Valid()
      modifies this, state
      ensures state == old(state) && (Snapshot(), outcome) == StepEffect(old(Snapshot()), Settings(), action)
    {
      frameId := frameId + 1;
      var exited, done := Repetitions(action);
      if exited {
        return Exit;
      }
      if done {
        return Stepped(lastR, true);
      }
      if frameId >= maxTrialLength {
        outcome := Stepped(-1.0, true);
      } else {
        outcome := Stepped(lastR, false);
      }
    }
  }
}
