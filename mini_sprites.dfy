/**
 * The small grid world (`MiniSpritesEnvironment`): a single lit pixel moves
 * on a `width`×`height` grid; moving it below the bottom row ends the trial
 * with a reward that depends on which half of the grid it left from and on
 * the colour (the side the reward is on).
 *
 * Positions are integers: the source keeps them as integer-valued floats
 * (`+= 1.0`) and truncates them back to `int` whenever it draws a frame.
 */
module MiniSprites {

  /** The fixed part of the environment: its size and the trial length. */
  datatype Config = Config(width: int, height: int, maxTrialLength: int)

  predicate ConfigOk(c: Config)
  {
    c.width >= 1 && c.height >= 1
  }

  /** The mutable part: the position, the frame counter, the last reward and the colour. */
  datatype State = State(x: int, y: int, frameId: int, lastR: real, rewardOnTheRight: bool)

  /** What `step` returns besides the frame; `Exit` is the process exit on an invalid action. */
  datatype Outcome = Exit | Stepped(reward: real, done: bool)

  // ---------------------------------------------------------------------
  // Position clamping
  // ---------------------------------------------------------------------

  /** `v` brought into `[0, hi]`: first lifted to 0, then lowered to `hi`. */
  function Clamp(v: int, hi: int): (r: int)
    requires hi >= 0
    ensures 0 <= r <= hi
    ensures 0 <= v <= hi ==> r == v
    ensures v < 0 ==> r == 0
    ensures v > hi ==> r == hi
  {
    var lifted := if v < 0 then 0 else v;
    if lifted > hi then hi else lifted
  }

  /** `ensure_position_is_valid`: the position brought into the grid; nothing else changes. */
  function Clamped(s: State, c: Config): (r: State)
    requires ConfigOk(c)
    ensures 0 <= r.x <= c.width - 1 && 0 <= r.y <= c.height - 1
    ensures 0 <= s.x <= c.width - 1 ==> r.x == s.x
    ensures 0 <= s.y <= c.height - 1 ==> r.y == s.y
    ensures r.frameId == s.frameId && r.lastR == s.lastR && r.rewardOnTheRight == s.rewardOnTheRight
  {
    s.(x := Clamp(s.x, c.width - 1), y := Clamp(s.y, c.height - 1))
  }

  /** Clamping twice is clamping once. */
  lemma ClampedIdempotent(s: State, c: Config)
    requires ConfigOk(c)
    ensures Clamped(Clamped(s, c), c) == Clamped(s, c)
  {
  }

  // ---------------------------------------------------------------------
  // Rewards
  // ---------------------------------------------------------------------

  /** Half the width, `w2`. */
  function HalfWidth(c: Config): real
  {
    c.width as real / 2.0
  }

  /** The last column of the left half, `w21 = w2 - 1`. */
  function LeftEdge(c: Config): real
  {
    HalfWidth(c) - 1.0
  }

  /** `compute_reward_on_the_left`: positive on the left half, negative on the right half. */
  function RewardOnTheLeft(x: int, c: Config): real
    requires ConfigOk(c)
  {
    if x as real > LeftEdge(c) then (LeftEdge(c) - x as real) / HalfWidth(c)
    else (HalfWidth(c) - x as real) / HalfWidth(c)
  }

  /** `compute_reward_on_the_right`: positive on the right half, negative on the left half. */
  function RewardOnTheRight(x: int, c: Config): real
    requires ConfigOk(c)
  {
    if x as real > LeftEdge(c) then (x as real - LeftEdge(c)) / HalfWidth(c)
    else (x as real - HalfWidth(c)) / HalfWidth(c)
  }

  /** `compute_hard_reward`: the reward of the side the colour names, at the clamped position. */
  function HardReward(s: State, c: Config): real
    requires ConfigOk(c)
  {
    var v := Clamped(s, c);
    if s.rewardOnTheRight then RewardOnTheRight(v.x, c) else RewardOnTheLeft(v.x, c)
  }

  /** A ratio `a / b` with `|a| <= b` lies in `[-1, 1]` and has the sign of `a`. */
  lemma Ratio(a: real, b: real)
    requires b > 0.0 && -b <= a <= b
    ensures -1.0 <= a / b <= 1.0
    ensures a / b > 0.0 <==> a > 0.0
  {
    var q := a / b;
    assert q * b == a;
  }

  /**
   * The hard reward lies in `[-1, 1]`, and it is positive exactly when the
   * clamped column is on the rewarded half: right of `w2 - 1` when the
   * reward is on the right, at or left of it otherwise.
   */
  lemma HardRewardBounds(s: State, c: Config)
    requires ConfigOk(c)
    ensures -1.0 <= HardReward(s, c) <= 1.0
    ensures HardReward(s, c) > 0.0 <==>
      if s.rewardOnTheRight then Clamped(s, c).x as real > LeftEdge(c)
      else Clamped(s, c).x as real <= LeftEdge(c)
  {
    var x := Clamped(s, c).x as real;
    var w2 := HalfWidth(c);
    if x > LeftEdge(c) {
      if s.rewardOnTheRight {
        Ratio(x - LeftEdge(c), w2);
      } else {
        Ratio(LeftEdge(c) - x, w2);
      }
    } else {
      if s.rewardOnTheRight {
        Ratio(x - w2, w2);
      } else {
        Ratio(w2 - x, w2);
      }
    }
  }

  // ---------------------------------------------------------------------
  // Actions
  // ---------------------------------------------------------------------

  /**
   * `down`: a negative row is lifted to 0 and the row grows by one; once it
   * reaches `height` the trial ends with the hard reward, which also clamps
   * the position.
   */
  function DownEffect(s: State, c: Config): (State, bool)
    requires ConfigOk(c)
  {
    var moved := s.(y := (if s.y < 0 then 0 else s.y) + 1);
    if moved.y >= c.height then (Clamped(moved, c).(lastR := HardReward(moved, c)), true)
    else (moved, false)
  }

  /** `up`: a row past the bottom is lowered to `height - 1`, then the row shrinks by one. */
  function UpEffect(s: State, c: Config): (State, bool)
  {
    (s.(y := (if s.y > c.height - 1 then c.height - 1 else s.y) - 1), false)
  }

  /** `right`: nothing once below the grid; otherwise a negative column is lifted to 0 and grows by one. */
  function RightEffect(s: State, c: Config): (State, bool)
  {
    if s.y >= c.height then (s, false)
    else (s.(x := (if s.x < 0 then 0 else s.x) + 1), false)
  }

  /** `left`: nothing once below the grid; otherwise a column past the edge is lowered to `width - 1` and shrinks by one. */
  function LeftEffect(s: State, c: Config): (State, bool)
  {
    if s.y >= c.height then (s, false)
    else (s.(x := (if s.x > c.width - 1 then c.width - 1 else s.x) - 1), false)
  }

  /** The action table `[down, up, left, right, idle]`. */
  function Act(s: State, c: Config, action: nat): (State, bool)
    requires ConfigOk(c) && action <= 4
  {
    match action
    case 0 => DownEffect(s, c)
    case 1 => UpEffect(s, c)
    case 2 => LeftEffect(s, c)
    case 3 => RightEffect(s, c)
    case _ => (s, false)
  }

  /**
   * `step`: count the frame, run the action (an action outside 0..4 exits),
   * then report the action's end of trial with its reward, or the end of
   * the allotted frames with -1, or the last reward. The frame that is
   * returned clamps the position.
   */
  function StepEffect(s: State, c: Config, action: int): (State, Outcome)
    requires ConfigOk(c)
  {
    var counted := s.(frameId := s.frameId + 1);
    if action < 0 || action > 4 then (counted, Exit)
    else
      var (acted, done) := Act(counted, c, action);
      var shown := Clamped(acted, c);
      if done then (shown, Stepped(acted.lastR, true))
      else if acted.frameId >= c.maxTrialLength then (shown, Stepped(-1.0, true))
      else (shown, Stepped(acted.lastR, false))
  }

  /** `down` ends the trial exactly when the lifted row plus one reaches `height`, and then sets the hard reward. */
  lemma DownEndsTrial(s: State, c: Config)
    requires ConfigOk(c)
    ensures DownEffect(s, c).1 <==> (if s.y < 0 then 0 else s.y) + 1 >= c.height
    ensures DownEffect(s, c).1 ==> DownEffect(s, c).0.lastR == HardReward(s.(y := (if s.y < 0 then 0 else s.y) + 1), c)
    ensures !DownEffect(s, c).1 ==> DownEffect(s, c).0 == s.(y := (if s.y < 0 then 0 else s.y) + 1)
  {
  }

  /** `up`, `left`, `right` and `idle` never end a trial; below the grid `left` and `right` change nothing. */
  lemma OtherActionsContinue(s: State, c: Config, action: nat)
    requires ConfigOk(c) && 1 <= action <= 4
    ensures !Act(s, c, action).1
    ensures Act(s, c, action).0.lastR == s.lastR && Act(s, c, action).0.frameId == s.frameId
    ensures (action == 2 || action == 3) && s.y >= c.height ==> Act(s, c, action).0 == s
  {
  }

  /**
   * A step counts exactly one frame; an action outside 0..4 exits; otherwise
   * the trial ends when the action ended it (with its reward) or when the
   * frame budget is used up (with -1), and the position is left in the grid.
   */
  lemma StepOutcome(s: State, c: Config, action: int)
    requires ConfigOk(c)
    ensures StepEffect(s, c, action).0.frameId == s.frameId + 1
    ensures StepEffect(s, c, action).1.Exit? <==> action < 0 || action > 4
    ensures 0 <= action <= 4 ==>
      var (acted, done) := Act(s.(frameId := s.frameId + 1), c, action);
      var (t, o) := StepEffect(s, c, action);
      && 0 <= t.x < c.width && 0 <= t.y < c.height
      && (done ==> o == Stepped(t.lastR, true))
      && (!done && s.frameId + 1 >= c.maxTrialLength ==> o == Stepped(-1.0, true))
      && (!done && s.frameId + 1 < c.maxTrialLength ==> o == Stepped(t.lastR, false))
  {
  }

  /** Every reward a step reports lies in `[-1, 1]`, given a previous reward that did. */
  lemma StepRewardBounded(s: State, c: Config, action: int)
    requires ConfigOk(c) && -1.0 <= s.lastR <= 1.0
    ensures StepEffect(s, c, action).1.Stepped? ==> -1.0 <= StepEffect(s, c, action).1.reward <= 1.0
    ensures -1.0 <= StepEffect(s, c, action).0.lastR <= 1.0
  {
    if action == 0 {
      var counted := s.(frameId := s.frameId + 1);
      HardRewardBounds(counted.(y := (if counted.y < 0 then 0 else counted.y) + 1), c);
    }
  }

  /** Where an action leaves the position does not depend on the frame counter or the last reward. */
  lemma ActPositionIgnoresCounters(s: State, c: Config, action: nat, frameId: int, lastR: real)
    requires ConfigOk(c) && action <= 4
    ensures var t := Act(s.(frameId := frameId, lastR := lastR), c, action).0;
      t.x == Act(s, c, action).0.x && t.y == Act(s, c, action).0.y
  {
    var u := s.(frameId := frameId, lastR := lastR);
    if action == 0 {
      var y := (if s.y < 0 then 0 else s.y) + 1;
      assert DownEffect(u, c).0.x == Clamped(u.(y := y), c).x || DownEffect(u, c).0.x == u.x;
    }
  }

  /** Where a step leaves the position does not depend on the frame counter or the last reward. */
  lemma StepPositionIgnoresCounters(s: State, c: Config, action: int, frameId: int, lastR: real)
    requires ConfigOk(c)
    ensures var t := StepEffect(s.(frameId := frameId, lastR := lastR), c, action).0;
      t.x == StepEffect(s, c, action).0.x && t.y == StepEffect(s, c, action).0.y
  {
    if 0 <= action <= 4 {
      var a := Act(s.(frameId := s.frameId + 1), c, action).0;
      var b := Act(s.(frameId := frameId + 1, lastR := lastR), c, action).0;
      ActPositionIgnoresCounters(s.(frameId := s.frameId + 1), c, action, frameId + 1, lastR);
      assert StepEffect(s, c, action).0 == Clamped(a, c);
      assert StepEffect(s.(frameId := frameId, lastR := lastR), c, action).0 == Clamped(b, c);
    }
  }

  // ---------------------------------------------------------------------
  // Frames
  // ---------------------------------------------------------------------

  /** The colour channel of the lit pixel: 0 when the reward is on the right, 1 otherwise. */
  function Channel(s: State): nat
  {
    if s.rewardOnTheRight then 0 else 1
  }

  /** Pixel `(row, col, ch)` of the frame drawn for a position already in the grid. */
  function Pixel(s: State, row: int, col: int, ch: int): real
  {
    if row == s.y && col == s.x && ch == Channel(s) then 255.0 else 0.0
  }

  /**
   * A frame lights exactly one pixel, with value 255: the clamped position,
   * on the colour's channel; that pixel lies inside the image.
   */
  lemma FrameLightsOnePixel(s: State, c: Config, row: int, col: int, ch: int)
    requires ConfigOk(c)
    ensures var v := Clamped(s, c);
      && 0 <= v.y < c.height && 0 <= v.x < c.width && Channel(v) < 3
      && (Pixel(v, row, col, ch) != 0.0 <==> row == v.y && col == v.x && ch == Channel(s))
      && (Pixel(v, row, col, ch) == 0.0 || Pixel(v, row, col, ch) == 255.0)
  {
  }

  /** A reset position `(x0, y0)` drawn in the grid, with the counters cleared. */
  function ResetState(right: bool, x0: int, y0: int): State
  {
    State(x0, y0, 0, 0.0, right)
  }

  /** The environment as the source keeps it: fields updated in place by the actions. */
  class Environment {
    const width: int
    const height: int
    const maxTrialLength: int
    var x: int
    var y: int
    var frameId: int
    var lastR: real
    var rewardOnTheRight: bool

    function Settings(): Config
    {
      Config(width, height, maxTrialLength)
    }

    function Snapshot(): State
      reads this
    {
      State(x, y, frameId, lastR, rewardOnTheRight)
    }

    predicate Valid()
    {
      ConfigOk(Settings())
    }

    /**
     * The constructor: the configuration, then `reset` with the drawn colour
     * and position (the source's first draw is overwritten by that reset).
     */
    constructor (width: int, height: int, maxTrialLength: int, right: bool, x0: int, y0: int)
      requires width >= 1 && height >= 1 && 0 <= x0 < width && 0 <= y0 < height
      ensures Valid() && Settings() == Config(width, height, maxTrialLength)
      ensures Snapshot() == ResetState(right, x0, y0)
    {
      this.width := width;
      this.height := height;
      this.maxTrialLength := maxTrialLength;
      new;
      var _ := Reset(right, x0, y0);
    }

    /** `reset`: counters cleared, colour and position drawn (given here), first frame drawn. */
    method Reset(right: bool, x0: int, y0: int) returns (frame: array3<real>)
      requires Valid() && 0 <= x0 < width && 0 <= y0 < height
      modifies this
      ensures Snapshot() == ResetState(right, x0, y0)
      ensures fresh(frame) && frame.Length0 == height && frame.Length1 == width && frame.Length2 == 3
      ensures forall r, c, ch :: 0 <= r < height && 0 <= c < width && 0 <= ch < 3 ==> frame[r, c, ch] == Pixel(Snapshot(), r, c, ch)
    {
      lastR := 0.0;
      frameId := 0;
      rewardOnTheRight := right;
      x := x0;
      y := y0;
      frame := CurrentFrame();
    }

    /** `ensure_position_is_valid`. */
    method EnsurePositionIsValid()
      requires Valid()
      modifies this`x, this`y
      ensures Snapshot() == Clamped(old(Snapshot()), Settings())
    {
      if x < 0 {
        x := 0;
      }
      if x > width - 1 {
        x := width - 1;
      }
      if y < 0 {
        y := 0;
      }
      if y > height - 1 {
        y := height - 1;
      }
    }

    /** `current_frame`: clamp the position, then light its pixel in an all-zero `height`×`width`×3 image. */
    method CurrentFrame() returns (image: array3<real>)
      requires Valid()
      modifies this`x, this`y
      ensures Snapshot() == Clamped(old(Snapshot()), Settings())
      ensures fresh(image) && image.Length0 == height && image.Length1 == width && image.Length2 == 3
      ensures forall r, c, ch :: 0 <= r < height && 0 <= c < width && 0 <= ch < 3 ==> image[r, c, ch] == Pixel(Snapshot(), r, c, ch)
    {
      EnsurePositionIsValid();
      ghost var shown := Snapshot();
      image := new real[height, width, 3]((_, _, _) => 0.0);
      var channel := if rewardOnTheRight then 0 else 1;
      var col := 0;
      while col < width
        invariant 0 <= col <= width && Snapshot() == shown
        invariant forall r, c, ch :: 0 <= r < height && 0 <= c < width && 0 <= ch < 3 ==>
          image[r, c, ch] == if c < col then Pixel(Snapshot(), r, c, ch) else 0.0
      {
        var row := 0;
        while row < height
          invariant 0 <= row <= height && Snapshot() == shown
          invariant forall r, c, ch :: 0 <= r < height && 0 <= c < width && 0 <= ch < 3 ==>
            image[r, c, ch] == if c < col || (c == col && r < row) then Pixel(Snapshot(), r, c, ch) else 0.0
        {
          if x == col && y == row {
            image[row, col, channel] := 255.0;
          }
          row := row + 1;
        }
        col := col + 1;
      }
    }

    /** `compute_hard_reward`: clamps the position, then the reward of the colour's side. */
    method ComputeHardReward() returns (r: real)
      requires Valid()
      modifies this`x, this`y
      ensures Snapshot() == Clamped(old(Snapshot()), Settings())
      ensures r == HardReward(old(Snapshot()), Settings())
    {
      EnsurePositionIsValid();
      if rewardOnTheRight {
        r := RewardOnTheRight(x, Settings());
      } else {
        r := RewardOnTheLeft(x, Settings());
      }
    }

    method Down() returns (done: bool)
      requires Valid()
      modifies this
      ensures (Snapshot(), done) == DownEffect(old(Snapshot()), Settings())
    {
      if y < 0 {
        y := 0;
      }
      y := y + 1;
      if y >= height {
        lastR := ComputeHardReward();
        return true;
      }
      return false;
    }

    method Up() returns (done: bool)
      modifies this
      ensures (Snapshot(), done) == UpEffect(old(Snapshot()), Settings())
    {
      if y > height - 1 {
        y := height - 1;
      }
      y := y - 1;
      return false;
    }

    method Right() returns (done: bool)
      modifies this
      ensures (Snapshot(), done) == RightEffect(old(Snapshot()), Settings())
    {
      if y >= height {
        return false;
      }
      if x < 0 {
        x := 0;
      }
      x := x + 1;
      return false;
    }

    method Left() returns (done: bool)
      modifies this
      ensures (Snapshot(), done) == LeftEffect(old(Snapshot()), Settings())
    {
      if y >= height {
        return false;
      }
      if x > width - 1 {
        x := width - 1;
      }
      x := x - 1;
      return false;
    }

    /** `step`: the observation is only drawn when the action was valid. */
    method Step(action: int) returns (obs: array3<real>, outcome: Outcome)
      requires Valid()
      modifies this
      ensures (Snapshot(), outcome) == StepEffect(old(Snapshot()), Settings(), action)
      ensures outcome.Stepped? ==> fresh(obs) && obs.Length0 == height && obs.Length1 == width && obs.Length2 == 3
      ensures outcome.Stepped? ==>
        forall r, c, ch :: 0 <= r < height && 0 <= c < width && 0 <= ch < 3 ==> obs[r, c, ch] == Pixel(Snapshot(), r, c, ch)
    {
      frameId := frameId + 1;
      if action < 0 || action > 4 {
        obs := new real[0, 0, 0];
        return obs, Exit;
      }
      var done;
      if action == 0 {
        done := Down();
      } else if action == 1 {
        done := Up();
      } else if action == 2 {
        done := Left();
      } else if action == 3 {
        done := Right();
      } else {
        done := false;
      }
      var reward := lastR;
      var trialOver := frameId >= maxTrialLength;
      obs := CurrentFrame();
      if done {
        outcome := Stepped(reward, true);
      } else if trialOver {
        outcome := Stepped(-1.0, true);
      } else {
        outcome := Stepped(reward, false);
      }
    }
  }
}
