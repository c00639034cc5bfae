/**
 * The generative model that the expected-free-energy experiment hands to
 * the agent for the small grid world: one likelihood table per pixel
 * (`a_matrix`), transitions read off the environment itself (`b_matrix`),
 * preferences over the two bottom corners (`c_matrix`), priors over the
 * hidden states (`d_matrix`), and the observation each pixel gives
 * (`pre_process`).
 *
 * Hidden states are the column `S_x`, the row `S_y` and the colour
 * `S_color`; a pixel's observation has three channels, the third meaning
 * "nothing here".
 */
module EfeMatrices {
  import opened Wrappers
  import opened Text
  import opened Tensors
  import opened MiniSprites
  import Agents

  // ---------------------------------------------------------------------
  // Pixel names
  // ---------------------------------------------------------------------

  /** The name of the observation of pixel `(x, y)`, `f"O_{x}_{y}"`. */
  function PixelName(x: nat, y: nat): (r: string)
    ensures |r| == 3 + |NatToString(x)| + |NatToString(y)|
    ensures r[..2] == "O_" && r[2..2 + |NatToString(x)|] == NatToString(x)
    ensures r[2 + |NatToString(x)|] == '_' && r[3 + |NatToString(x)|..] == NatToString(y)
  {
    var a, b := NatToString(x), NatToString(y);
    var r := "O_" + a + "_" + b;
    assert r[..2] == "O_" && r[2..2 + |a|] == a;
    assert r[2 + |a|] == '_' && r[3 + |a|..] == b;
    r
  }

  /** Distinct pixels have distinct names, so no table overwrites another. */
  lemma PixelNameInjective(x1: nat, y1: nat, x2: nat, y2: nat)
    requires PixelName(x1, y1) == PixelName(x2, y2)
    ensures x1 == x2 && y1 == y2
  {
    var a, b := NatToString(x1), NatToString(x2);
    var s := PixelName(x1, y1);
    assert |a| == |b|;
    NatToStringInjective(x1, x2);
    NatToStringInjective(y1, y2);
  }

  /** Pixel `(a, b)` comes before pixel `(x, y)` in an order that sweeps `x` in the outer loop. */
  predicate Before(a: nat, b: nat, x: nat, y: nat)
  {
    a < x || (a == x && b < y)
  }

  /** The names of the pixels before `(x, y)` in a grid `height` rows tall. */
  ghost predicate NamedBefore(k: string, height: nat, x: nat, y: nat)
  {
    exists a: nat, b: nat :: b < height && Before(a, b, x, y) && k == PixelName(a, b)
  }

  // ---------------------------------------------------------------------
  // Likelihoods (`a_matrix`)
  // ---------------------------------------------------------------------

  /**
   * Entry `[o][xi][yi][c]` of the likelihood of pixel `(x, y)`: the
   * probability that the pixel shows channel `o` when the sprite is at
   * `(xi, yi)` with colour `c`. On the sprite's own pixel the colour's
   * channel is likely; elsewhere the "nothing" channel 2 is.
   */
  function AEntry(x: nat, y: nat, noise: real, o: nat, xi: nat, yi: nat, c: nat): real
  {
    if xi == x && yi == y then (if o == c then 1.0 - noise else noise / 2.0)
    else (if o == 2 then 1.0 - noise else noise / 2.0)
  }

  /** The channel the likelihood of pixel `(x, y)` expects for a sprite at `(xi, yi)` of colour `c`. */
  function ExpectedChannel(x: nat, y: nat, xi: nat, yi: nat, c: nat): nat
  {
    if xi == x && yi == y then c else 2
  }

  /**
   * Every column of a pixel's likelihood is a distribution over the three
   * channels, and with `noise < 2/3` its single most likely channel is the
   * expected one.
   */
  lemma ALikelihoodColumn(x: nat, y: nat, noise: real, xi: nat, yi: nat, c: nat)
    requires c < 2
    ensures AEntry(x, y, noise, 0, xi, yi, c) + AEntry(x, y, noise, 1, xi, yi, c) + AEntry(x, y, noise, 2, xi, yi, c) == 1.0
    ensures noise < 2.0 / 3.0 ==> forall o :: 0 <= o < 3 && o != ExpectedChannel(x, y, xi, yi, c) ==>
      AEntry(x, y, noise, o, xi, yi, c) < AEntry(x, y, noise, ExpectedChannel(x, y, xi, yi, c), xi, yi, c)
  {
  }

  /** `t` is the `[3, width, height, 2]` likelihood of pixel `(x, y)`. */
  ghost predicate IsPixelLikelihood(t: array4<real>, width: nat, height: nat, x: nat, y: nat, noise: real)
    reads t
  {
    && t.Length0 == 3 && t.Length1 == width && t.Length2 == height && t.Length3 == 2
    && forall o, xi, yi, c :: 0 <= o < 3 && 0 <= xi < width && 0 <= yi < height && 0 <= c < 2 ==>
         t[o, xi, yi, c] == AEntry(x, y, noise, o, xi, yi, c)
  }

  /** The cells `(xi, yi, c)` visited before `(xi0, yi0, c0)` hold their final entries; the others still hold the fill. */
  ghost predicate FilledBefore(t: array4<real>, x: nat, y: nat, noise: real, c0: nat, xi0: nat, yi0: nat)
    requires t.Length0 == 3 && t.Length3 == 2
    reads t
  {
    forall o, xi, yi, c :: 0 <= o < 3 && 0 <= xi < t.Length1 && 0 <= yi < t.Length2 && 0 <= c < 2 ==>
      t[o, xi, yi, c] == if c < c0 || (c == c0 && Before(xi, yi, xi0, yi0)) then AEntry(x, y, noise, o, xi, yi, c) else noise / 2.0
  }

  /** The innermost loop of `a_matrix`, over `ci`, for one cell `(xi, yi, c)`. */
  method FillCell(t: array4<real>, x: nat, y: nat, noise: real, xi: nat, yi: nat, c: nat)
    requires t.Length0 == 3 && xi < t.Length1 && yi < t.Length2 && t.Length3 == 2 && c < 2
    requires forall o :: 0 <= o < 3 ==> t[o, xi, yi, c] == noise / 2.0
    modifies t
    ensures forall o :: 0 <= o < 3 ==> t[o, xi, yi, c] == AEntry(x, y, noise, o, xi, yi, c)
    ensures forall o, a, b, d :: (0 <= o < 3 && 0 <= a < t.Length1 && 0 <= b < t.Length2 && 0 <= d < 2
      && (a != xi || b != yi || d != c)) ==> t[o, a, b, d] == old(t[o, a, b, d])
  {
    for ci := 0 to 2
      invariant forall o :: 0 <= o < 3 ==>
        t[o, xi, yi, c] == if (o == 2 && ci >= 1) || o < ci then AEntry(x, y, noise, o, xi, yi, c) else noise / 2.0
      invariant forall o, a, b, d :: (0 <= o < 3 && 0 <= a < t.Length1 && 0 <= b < t.Length2 && 0 <= d < 2
        && (a != xi || b != yi || d != c)) ==> t[o, a, b, d] == old(t[o, a, b, d])
    {
      if xi == x && yi == y && ci == c {
        t[ci, xi, yi, c] := 1.0 - noise;
      }
      if xi != x || yi != y {
        t[2, xi, yi, c] := 1.0 - noise;
      }
    }
  }

  /** The likelihood of pixel `(x, y)`: filled with `noise / 2`, then swept cell by cell. */
  method PixelLikelihood(width: nat, height: nat, x: nat, y: nat, noise: real) returns (t: array4<real>)
    ensures fresh(t) && IsPixelLikelihood(t, width, height, x, y, noise)
  {
    t := new real[3, width, height, 2]((_, _, _, _) => noise / 2.0);
    for c := 0 to 2
      invariant FilledBefore(t, x, y, noise, c, 0, 0)
    {
      for xi := 0 to width
        invariant FilledBefore(t, x, y, noise, c, xi, 0)
      {
        for yi := 0 to height
          invariant FilledBefore(t, x, y, noise, c, xi, yi)
        {
          FillCell(t, x, y, noise, xi, yi, c);
        }
      }
    }
  }

  /** The pixels visited before `(x, y)` column by column have names other than its own. */
  lemma ColumnMajorNamesDiffer(x: nat, y: nat)
    ensures forall a: nat, b: nat :: Before(a, b, x, y) ==> PixelName(a, b) != PixelName(x, y)
  {
    forall a: nat, b: nat | Before(a, b, x, y)
      ensures PixelName(a, b) != PixelName(x, y)
    {
      if PixelName(a, b) == PixelName(x, y) {
        PixelNameInjective(a, b, x, y);
      }
    }
  }

  /** Every pixel before `(x, y)` has its likelihood under its name. */
  ghost predicate LikelihoodsBefore(likelihoods: map<string, array4<real>>, width: nat, height: nat, x: nat, y: nat, noise: real)
    reads likelihoods.Values
  {
    forall a, b :: 0 <= b < height && Before(a, b, x, y) ==>
      PixelName(a, b) in likelihoods && IsPixelLikelihood(likelihoods[PixelName(a, b)], width, height, a, b, noise)
  }

  /** Storing the likelihood of `(x, y)` under its name extends the pixels done by one. */
  lemma LikelihoodsExtend(likelihoods: map<string, array4<real>>, width: nat, height: nat, x: nat, y: nat, noise: real, t: array4<real>)
    requires y < height && LikelihoodsBefore(likelihoods, width, height, x, y, noise)
    requires IsPixelLikelihood(t, width, height, x, y, noise)
    ensures LikelihoodsBefore(likelihoods[PixelName(x, y) := t], width, height, x, y + 1, noise)
  {
    ColumnMajorNamesDiffer(x, y);
  }

  /** One pass of the outer loop of `a_matrix`: the likelihoods of column `x`, row by row. */
  method AddColumn(likelihoods: map<string, array4<real>>, width: nat, height: nat, x: nat, noise: real)
    returns (r: map<string, array4<real>>)
    requires forall k :: k in likelihoods ==> NamedBefore(k, height, x, 0)
    requires LikelihoodsBefore(likelihoods, width, height, x, 0, noise)
    ensures forall k :: k in r ==> NamedBefore(k, height, x + 1, 0)
    ensures forall k :: k in r ==> (k in likelihoods && r[k] == likelihoods[k]) || fresh(r[k])
    ensures LikelihoodsBefore(r, width, height, x + 1, 0, noise)
  {
    r := likelihoods;
    for y := 0 to height
      invariant forall k :: k in r ==> NamedBefore(k, height, x, y)
      invariant forall k :: k in r ==> (k in likelihoods && r[k] == likelihoods[k]) || fresh(r[k])
      invariant LikelihoodsBefore(r, width, height, x, y, noise)
    {
      var t := PixelLikelihood(width, height, x, y, noise);
      LikelihoodsExtend(r, width, height, x, y, noise, t);
      assert NamedBefore(PixelName(x, y), height, x, y + 1) by {
        assert Before(x, y, x, y + 1);
      }
      r := r[PixelName(x, y) := t];
    }
  }

  /** `a_matrix`: one likelihood per pixel, keyed by the pixel's name. */
  method AMatrix(width: nat, height: nat, noise: real) returns (likelihoods: map<string, array4<real>>)
    ensures forall k :: k in likelihoods ==> NamedBefore(k, height, width, 0)
    ensures forall x, y :: 0 <= x < width && 0 <= y < height ==>
      PixelName(x, y) in likelihoods && fresh(likelihoods[PixelName(x, y)])
      && IsPixelLikelihood(likelihoods[PixelName(x, y)], width, height, x, y, noise)
  {
    likelihoods := map[];
    for x := 0 to width
      invariant forall k :: k in likelihoods ==> NamedBefore(k, height, x, 0)
      invariant forall k :: k in likelihoods ==> fresh(likelihoods[k])
      invariant LikelihoodsBefore(likelihoods, width, height, x, 0, noise)
    {
      likelihoods := AddColumn(likelihoods, width, height, x, noise);
    }
    forall x, y | 0 <= x < width && 0 <= y < height
      ensures PixelName(x, y) in likelihoods && IsPixelLikelihood(likelihoods[PixelName(x, y)], width, height, x, y, noise)
    {
      assert Before(x, y, width, 0);
    }
  }

  // ---------------------------------------------------------------------
  // Transitions (`b_matrix`)
  // ---------------------------------------------------------------------

  /** The number of values of hidden state `i` (`s_sizes`). */
  function Size(c: Config, i: nat): int
  {
    if i == 0 then c.width else if i == 1 then c.height else 2
  }

  /** The state `b_matrix` puts the environment in for value `j` of state `i`: that coordinate `j`, the others 0. */
  function Source(i: nat, j: int, frameId: int, lastR: real): State
  {
    if i == 0 then State(j, 0, frameId, lastR, false) else State(0, j, frameId, lastR, false)
  }

  /** Coordinate `i` of where `step(k)` leaves the sprite from value `j` of state `i`. */
  function Dest(c: Config, i: nat, j: int, k: int): int
    requires ConfigOk(c)
  {
    var t := StepEffect(Source(i, j, 0, 0.0), c, k).0;
    if i == 0 then t.x else t.y
  }

  /** The destination lies inside the grid. */
  lemma DestInRange(c: Config, i: nat, j: int, k: int)
    requires ConfigOk(c) && i < 2 && 0 <= k <= 4
    ensures 0 <= Dest(c, i, j, k) < Size(c, i)
  {
    StepOutcome(Source(i, j, 0, 0.0), c, k);
  }

  /**
   * From inside the grid, the horizontal state moves one column left
   * (action 2) or right (action 3), stopping at the edges, and stays put
   * under the other actions; the vertical state moves one row down
   * (action 0) or up (action 1) the same way.
   */
  lemma DestMovesOneCell(c: Config, i: nat, j: int, k: int)
    requires ConfigOk(c) && i < 2 && 0 <= k <= 4 && 0 <= j < Size(c, i)
    ensures i == 0 ==> Dest(c, i, j, k) == (if k == 2 then Clamp(j - 1, c.width - 1) else if k == 3 then Clamp(j + 1, c.width - 1) else j)
    ensures i == 1 ==> Dest(c, i, j, k) == (if k == 0 then Clamp(j + 1, c.height - 1) else if k == 1 then Clamp(j - 1, c.height - 1) else j)
  {
    var s := Source(i, j, 0, 0.0);
    var counted := s.(frameId := 1);
    assert StepEffect(s, c, k).0 == Clamped(Act(counted, c, k).0, c);
  }

  /** Entry `[dest][j][k]` of a transition table over `n` values: `1 - noise` at the destination of `(j, k)`, `noise / (n - 1)` elsewhere. */
  function BEntry(n: nat, noise: real, destination: int, row: nat): real
    requires n >= 2
  {
    if row == destination then 1.0 - noise else noise / (n - 1) as real
  }

  /** Every column of a transition table is a distribution. */
  lemma BColumnSumsToOne(n: nat, noise: real, destination: nat)
    requires n >= 2 && destination < n
    ensures Sum(seq(n, row requires 0 <= row < n => BEntry(n, noise, destination, row))) == 1.0
  {
    var column := seq(n, row requires 0 <= row < n => BEntry(n, noise, destination, row));
    Agents.SumOneEntry(column, destination, 1.0 - noise, noise / (n - 1) as real);
    assert (n - 1) as real * (noise / (n - 1) as real) == noise;
  }

  /** `t` is the `[n, n, nActions]` transition table of state `i`. */
  ghost predicate IsTransition(t: array3<real>, c: Config, i: nat, nActions: nat, noise: real)
    requires ConfigOk(c) && i < 2 && Size(c, i) >= 2
    reads t
  {
    var n := Size(c, i);
    && t.Length0 == n && t.Length1 == n && t.Length2 == nActions
    && forall row, j, k :: 0 <= row < n && 0 <= j < n && 0 <= k < nActions ==>
         t[row, j, k] == BEntry(n, noise, Dest(c, i, j, k), row)
  }

  /**
   * One visit of the loop of `b_matrix`: the environment is put at value
   * `j` of state `i` (the other coordinate 0, the colour `False`) and
   * stepped with `k`. The result is the coordinate it lands on, or `None`
   * for the exit on an action past 4.
   */
  method StepFrom(env: Environment, i: nat, j: int, k: int) returns (destination: Option<int>)
    requires env.Valid() && i < 2
    modifies env
    ensures env.Valid()
    ensures destination.None? <==> k < 0 || k > 4
    ensures destination.Some? ==> destination.value == Dest(env.Settings(), i, j, k)
    ensures env.frameId == old(env.frameId) + 1 && !env.rewardOnTheRight
  {
    ghost var c := env.Settings();
    if i == 0 {
      env.x, env.y, env.rewardOnTheRight := j, 0, false;
    } else {
      env.x, env.y, env.rewardOnTheRight := 0, j, false;
    }
    ghost var before := env.Snapshot();
    assert before == Source(i, j, before.frameId, before.lastR);
    var _, outcome := env.Step(k);
    StepOutcome(before, c, k);
    if outcome.Exit? {
      return None;
    }
    StepPositionIgnoresCounters(Source(i, j, 0, 0.0), c, k, before.frameId, before.lastR);
    destination := Some(if i == 0 then env.x else env.y);
  }

  /**
   * The table of one of the two moving states as `b_matrix` evidently
   * intends it: filled with `noise / (n - 1)`, then, for each value `j` and
   * action `k`, the entry of the coordinate the environment lands on from
   * value `j` becomes `1 - noise`. `None` is the `ZeroDivisionError` of a
   * state with a single value, or the exit of the environment on an action
   * past 4.
   */
  method TransitionIntended(env: Environment, i: nat, nActions: nat, noise: real) returns (r: Option<array3<real>>)
    requires env.Valid() && i < 2
    modifies env
    ensures r.None? <==> Size(env.Settings(), i) < 2 || nActions > 5
    ensures r.Some? ==> fresh(r.value) && IsTransition(r.value, env.Settings(), i, nActions, noise)
    ensures r.Some? ==> env.frameId == old(env.frameId) + Size(env.Settings(), i) * nActions
    ensures r.Some? && nActions > 0 ==> !env.rewardOnTheRight
  {
    var n := if i == 0 then env.width else env.height;
    if n < 2 {
      return None;
    }
    var t := new real[n, n, nActions]((_, _, _) => noise / (n - 1) as real);
    ghost var c := env.Settings();
    ghost var fill := noise / (n - 1) as real;
    for j := 0 to n
      invariant env.Valid() && env.Settings() == c
      invariant j > 0 ==> nActions <= 5 && (nActions > 0 ==> !env.rewardOnTheRight)
      invariant env.frameId == old(env.frameId) + j * nActions
      invariant forall row, j', k :: 0 <= row < n && 0 <= j' < n && 0 <= k < nActions ==>
        t[row, j', k] == if j' < j then BEntry(n, noise, Dest(c, i, j', k), row) else fill
    {
      for k := 0 to nActions
        invariant env.Valid() && env.Settings() == c && k <= 5
        invariant k > 0 ==> !env.rewardOnTheRight
        invariant env.frameId == old(env.frameId) + j * nActions + k
        invariant forall row, j', k' :: 0 <= row < n && 0 <= j' < n && 0 <= k' < nActions ==>
          t[row, j', k'] == if j' < j || (j' == j && k' < k) then BEntry(n, noise, Dest(c, i, j', k'), row) else fill
      {
        var destination := StepFrom(env, i, j, k);
        if destination.None? {
          return None;
        }
        DestInRange(c, i, j, k);
        t[destination.value, j, k] := 1.0 - noise;
      }
    }
    r := Some(t);
  }

  // ---------------------------------------------------------------------
  // The loop of `b_matrix` as written: the position is a view of `cur_state`
  // ---------------------------------------------------------------------

  /** Coordinate `i` of where `step(k)` leaves the sprite from position `(x, y)`, colour `False`. */
  function DestFrom(c: Config, i: nat, x: int, y: int, k: int): int
    requires ConfigOk(c)
  {
    var t := StepEffect(State(x, y, 0, 0.0, false), c, k).0;
    if i == 0 then t.x else t.y
  }

  /** From any position, an action in 0..4 leaves the sprite inside the grid. */
  lemma DestFromInRange(c: Config, i: nat, x: int, y: int, k: int)
    requires ConfigOk(c) && i < 2 && 0 <= k <= 4
    ensures 0 <= DestFrom(c, i, x, y, k) < Size(c, i)
  {
    StepOutcome(State(x, y, 0, 0.0, false), c, k);
  }

  /**
   * What `step(k)` does to the first two entries of `cur_state` while
   * `env.x` and `env.y` are views of them: the action's `+= 1.0` or
   * `-= 1.0` writes through the view, unless the action first clamped that
   * coordinate, which rebinds the attribute to a plain number and leaves
   * `cur_state` alone. `ensure_position_is_valid` and `int()` only rebind,
   * and an action outside 0..4 exits before writing.
   */
  function ViewWrites(c: Config, x: int, y: int, k: int): (r: (int, int))
    ensures r.0 == x || r.1 == y
    ensures k == 0 || k == 1 ==> r.0 == x
    ensures k == 2 || k == 3 ==> r.1 == y
    ensures k < 0 || k > 3 ==> r == (x, y)
  {
    if k == 0 then (if y < 0 then (x, y) else (x, y + 1))
    else if k == 1 then (if y > c.height - 1 then (x, y) else (x, y - 1))
    else if k == 2 then (if y >= c.height || x > c.width - 1 then (x, y) else (x - 1, y))
    else if k == 3 then (if y >= c.height || x < 0 then (x, y) else (x + 1, y))
    else (x, y)
  }

  /**
   * Where `cur_state` stands when action `k` of value `j` of state `i`
   * starts: `(j, 0)` or `(0, j)`, moved by the writes of actions `0..k-1`.
   */
  function CurState(c: Config, i: nat, j: int, k: nat): (int, int)
    decreases k
  {
    if k == 0 then (if i == 0 then (j, 0) else (0, j))
    else
      var p := CurState(c, i, j, k - 1);
      ViewWrites(c, p.0, p.1, k - 1)
  }

  /** Coordinate `i` of where action `k` of value `j` leaves the sprite in the loop as written. */
  function AliasedDest(c: Config, i: nat, j: int, k: nat): int
    requires ConfigOk(c)
  {
    var p := CurState(c, i, j, k);
    DestFrom(c, i, p.0, p.1, k)
  }

  /**
   * The tables the loop as written reads off the environment, from inside
   * the grid. For the column: down and up stay, left moves one column
   * (unless a one-row grid already let down end the trial below it), and
   * right comes back to `j`, where from column 0 it reaches column 1 because
   * the clamp undid left's write. For the row: down moves one row, up stays
   * on `j` except from the last row (down's write was past the grid, so up
   * clamps first), and the other actions stay.
   */
  lemma AliasedDestTable(c: Config, i: nat, j: int, k: nat)
    requires ConfigOk(c) && i < 2 && k <= 4 && 0 <= j < Size(c, i)
    ensures i == 0 ==>
      AliasedDest(c, i, j, k) ==
        if k == 2 && c.height >= 2 then Clamp(j - 1, c.width - 1)
        else if k == 3 && c.height >= 2 && j == 0 then Clamp(1, c.width - 1)
        else j
    ensures i == 1 ==>
      AliasedDest(c, i, j, k) ==
        if k == 0 then Clamp(j + 1, c.height - 1)
        else if k == 1 && j == c.height - 1 then Clamp(j - 1, c.height - 1)
        else j
  {
    var h := c.height;
    if i == 0 {
      assert CurState(c, 0, j, 1) == (j, 1);
      if h >= 2 {
        assert CurState(c, 0, j, 2) == (j, 0);
        assert CurState(c, 0, j, 3) == (j - 1, 0);
        assert CurState(c, 0, j, 4) == if j == 0 then (-1, 0) else (j, 0);
      } else {
        assert CurState(c, 0, j, 2) == (j, 1);
        assert CurState(c, 0, j, 3) == (j, 1);
        assert CurState(c, 0, j, 4) == (j, 1);
      }
    } else {
      assert CurState(c, 1, j, 1) == (0, j + 1);
      if j < h - 1 {
        assert CurState(c, 1, j, 2) == (0, j);
        assert CurState(c, 1, j, 3) == (-1, j);
        assert CurState(c, 1, j, 4) == (-1, j);
      } else {
        assert CurState(c, 1, j, 2) == (0, h);
        assert CurState(c, 1, j, 3) == (0, h);
        assert CurState(c, 1, j, 4) == (0, h);
      }
    }
  }

  /**
   * As written, from a row with another row below it the up column stays
   * on that row, although the sprite moves one row up from it; from a column
   * other than the edges the right column stays on that column, although
   * the sprite moves one column right from it.
   */
  lemma AliasedColumnsStay(c: Config, j: int)
    requires ConfigOk(c) && c.height >= 2
    ensures 1 <= j < c.height - 1 ==> AliasedDest(c, 1, j, 1) == j && Dest(c, 1, j, 1) == j - 1
    ensures 1 <= j < c.width - 1 ==> AliasedDest(c, 0, j, 3) == j && Dest(c, 0, j, 3) == j + 1
  {
    if 1 <= j < c.height - 1 {
      AliasedDestTable(c, 1, j, 1);
      DestMovesOneCell(c, 1, j, 1);
    }
    if 1 <= j < c.width - 1 {
      AliasedDestTable(c, 0, j, 3);
      DestMovesOneCell(c, 0, j, 3);
    }
  }

  /**
   * One visit of the loop of `b_matrix` as written: `env.x` and `env.y`
   * become views of `cur_state`'s first two entries, the colour `False`,
   * and the environment steps with `k`. The results are the coordinate the
   * sprite lands on (`None` for the exit on an action past 4) and
   * `cur_state` after the step's writes through the views.
   */
  method StepThroughViews(env: Environment, i: nat, cur: (int, int), k: int) returns (destination: Option<int>, after: (int, int))
    requires env.Valid() && i < 2
    modifies env
    ensures env.Valid()
    ensures destination.None? <==> k < 0 || k > 4
    ensures destination.Some? ==> destination.value == DestFrom(env.Settings(), i, cur.0, cur.1, k)
    ensures after == ViewWrites(env.Settings(), cur.0, cur.1, k)
    ensures env.frameId == old(env.frameId) + 1 && !env.rewardOnTheRight
  {
    ghost var c := env.Settings();
    env.x, env.y, env.rewardOnTheRight := cur.0, cur.1, false;
    ghost var before := env.Snapshot();
    var _, outcome := env.Step(k);
    StepOutcome(before, c, k);
    after := ViewWrites(env.Settings(), cur.0, cur.1, k);
    if outcome.Exit? {
      return None, after;
    }
    StepPositionIgnoresCounters(State(cur.0, cur.1, 0, 0.0, false), c, k, before.frameId, before.lastR);
    destination := Some(if i == 0 then env.x else env.y);
  }

  /** `t` is the `[n, n, nActions]` transition table of state `i` as the loop as written fills it. */
  ghost predicate IsAliasedTransition(t: array3<real>, c: Config, i: nat, nActions: nat, noise: real)
    requires ConfigOk(c) && i < 2 && Size(c, i) >= 2
    reads t
  {
    var n := Size(c, i);
    && t.Length0 == n && t.Length1 == n && t.Length2 == nActions
    && forall row, j, k :: 0 <= row < n && 0 <= j < n && 0 <= k < nActions ==>
         t[row, j, k] == BEntry(n, noise, AliasedDest(c, i, j, k), row)
  }

  /**
   * The inner loop of `b_matrix` as written, for value `j`: a fresh
   * `cur_state` holding `j` at position `i`, then each action in turn from
   * where `cur_state` stands. `false` is the exit of the environment on an
   * action past 4.
   */
  method FillAliasedColumn(env: Environment, t: array3<real>, i: nat, j: nat, noise: real) returns (ok: bool)
    requires env.Valid() && i < 2 && Size(env.Settings(), i) >= 2 && j < Size(env.Settings(), i)
    requires t.Length0 == Size(env.Settings(), i) && t.Length1 == Size(env.Settings(), i)
    requires forall row, k :: 0 <= row < t.Length0 && 0 <= k < t.Length2 ==> t[row, j, k] == noise / (t.Length0 - 1) as real
    modifies env, t
    ensures env.Valid()
    ensures ok <==> t.Length2 <= 5
    ensures ok ==> env.frameId == old(env.frameId) + t.Length2 && (t.Length2 > 0 ==> !env.rewardOnTheRight)
    ensures ok ==> forall row, j', k :: 0 <= row < t.Length0 && 0 <= j' < t.Length1 && 0 <= k < t.Length2 ==>
      t[row, j', k] == if j' == j then BEntry(t.Length0, noise, AliasedDest(env.Settings(), i, j, k), row) else old(t[row, j', k])
  {
    ghost var c := env.Settings();
    var cur := if i == 0 then (j, 0) else (0, j);
    for k := 0 to t.Length2
      invariant env.Valid() && env.Settings() == c && k <= 5
      invariant k > 0 ==> !env.rewardOnTheRight
      invariant env.frameId == old(env.frameId) + k
      invariant cur == CurState(c, i, j, k)
      invariant forall row, j', k' :: 0 <= row < t.Length0 && 0 <= j' < t.Length1 && 0 <= k' < t.Length2 ==>
        t[row, j', k'] == if j' == j && k' < k then BEntry(t.Length0, noise, AliasedDest(c, i, j, k'), row) else old(t[row, j', k'])
    {
      var from := cur;
      var destination;
      destination, cur := StepThroughViews(env, i, from, k);
      if destination.None? {
        return false;
      }
      DestFromInRange(c, i, from.0, from.1, k);
      assert destination.value == AliasedDest(c, i, j, k);
      forall row | 0 <= row < t.Length0
        ensures (row == destination.value ==> 1.0 - noise == BEntry(t.Length0, noise, AliasedDest(c, i, j, k), row))
        ensures (row != destination.value ==> old(t[row, j, k]) == BEntry(t.Length0, noise, AliasedDest(c, i, j, k), row))
      {
      }
      t[destination.value, j, k] := 1.0 - noise;
    }
    return true;
  }

  /**
   * The table of one of the two moving states, as `b_matrix` builds it:
   * filled with `noise / (n - 1)`; for each value `j` a fresh `cur_state`
   * holds `j` at position `i`, and each action `k` in turn steps the
   * environment from where `cur_state` then stands, its entry of the
   * landing coordinate becoming `1 - noise`. `None` is the
   * `ZeroDivisionError` of a state with a single value, or the exit of the
   * environment on an action past 4.
   */
  method Transition(env: Environment, i: nat, nActions: nat, noise: real) returns (r: Option<array3<real>>)
    requires env.Valid() && i < 2
    modifies env
    ensures r.None? <==> Size(env.Settings(), i) < 2 || nActions > 5
    ensures r.Some? ==> fresh(r.value) && IsAliasedTransition(r.value, env.Settings(), i, nActions, noise)
    ensures r.Some? ==> env.frameId == old(env.frameId) + Size(env.Settings(), i) * nActions
    ensures r.Some? && nActions > 0 ==> !env.rewardOnTheRight
  {
    var n := if i == 0 then env.width else env.height;
    if n < 2 {
      return None;
    }
    var t := new real[n, n, nActions]((_, _, _) => noise / (n - 1) as real);
    ghost var c := env.Settings();
    ghost var fill := noise / (n - 1) as real;
    for j := 0 to n
      invariant env.Valid() && env.Settings() == c
      invariant j > 0 ==> nActions <= 5 && (nActions > 0 ==> !env.rewardOnTheRight)
      invariant env.frameId == old(env.frameId) + j * nActions
      invariant forall row, j', k :: 0 <= row < n && 0 <= j' < n && 0 <= k < nActions ==>
        t[row, j', k] == if j' < j then BEntry(n, noise, AliasedDest(c, i, j', k), row) else fill
    {
      var ok := FillAliasedColumn(env, t, i, j, noise);
      if !ok {
        return None;
      }
    }
    r := Some(t);
  }

  /** The three transition tables `b_matrix` returns. */
  datatype Transitions = Transitions(colour: seq<seq<real>>, x: array3<real>, y: array3<real>)

  /**
   * `b_matrix` as written: the colour, on which no action acts, gets the
   * 2×2 noisy identity; the column and the row get the tables read off the
   * environment through the views of `cur_state`.
   */
  method BMatrix(env: Environment, nActions: nat, noise: real) returns (r: Option<Transitions>)
    requires env.Valid()
    modifies env
    ensures r.None? <==> env.width < 2 || env.height < 2 || nActions > 5
    ensures r.Some? ==> Agents.IsNoisyIdentity(r.value.colour, 2, noise)
    ensures r.Some? ==> fresh(r.value.x) && IsAliasedTransition(r.value.x, env.Settings(), 0, nActions, noise)
    ensures r.Some? ==> fresh(r.value.y) && IsAliasedTransition(r.value.y, env.Settings(), 1, nActions, noise)
  {
    var colour := Agents.NoisyIdentity(2, noise);
    var x := Transition(env, 0, nActions, noise);
    if x.None? {
      return None;
    }
    var y := Transition(env, 1, nActions, noise);
    if y.None? {
      return None;
    }
    r := Some(Transitions(colour, x.value, y.value));
  }

  /** `b_matrix` with every action taken from value `j`: the tables of `TransitionIntended`. */
  method BMatrixIntended(env: Environment, nActions: nat, noise: real) returns (r: Option<Transitions>)
    requires env.Valid()
    modifies env
    ensures r.None? <==> env.width < 2 || env.height < 2 || nActions > 5
    ensures r.Some? ==> Agents.IsNoisyIdentity(r.value.colour, 2, noise)
    ensures r.Some? ==> fresh(r.value.x) && IsTransition(r.value.x, env.Settings(), 0, nActions, noise)
    ensures r.Some? ==> fresh(r.value.y) && IsTransition(r.value.y, env.Settings(), 1, nActions, noise)
  {
    var colour := Agents.NoisyIdentity(2, noise);
    var x := TransitionIntended(env, 0, nActions, noise);
    if x.None? {
      return None;
    }
    var y := TransitionIntended(env, 1, nActions, noise);
    if y.None? {
      return None;
    }
    r := Some(Transitions(colour, x.value, y.value));
  }

  // ---------------------------------------------------------------------
  // Preferences (`c_matrix`)
  // ---------------------------------------------------------------------

  lemma Sum3(a: real, b: real, c: real)
    ensures Sum([a, b, c]) == a + b + c
  {
    assert [c][1..] == [];
    assert Sum([c]) == c;
    assert [b, c][1..] == [c];
    assert Sum([b, c]) == b + c;
    assert [a, b, c][1..] == [b, c];
  }

  /** A preference over the three channels: `1 - noise` on channel `ch`, `noise / 3` on the others. */
  function Preference(noise: real, ch: nat): (r: Vec)
    requires ch < 3
    ensures |r| == 3 && r[ch] == 1.0 - noise
    ensures forall o :: 0 <= o < 3 && o != ch ==> r[o] == noise / 3.0
  {
    seq(3, o requires 0 <= o < 3 => if o == ch then 1.0 - noise else noise / 3.0)
  }

  /**
   * `c_matrix`, as written: the bottom-left pixel prefers channel 0 and the
   * bottom-right pixel channel 1. Neither vector is a distribution: the
   * entries add up to `1 - noise/3`.
   */
  method CMatrix(noise: real) returns (bottomLeft: Vec, bottomRight: Vec)
    ensures bottomLeft == Preference(noise, 0) && bottomRight == Preference(noise, 1)
    ensures Sum(bottomLeft) == 1.0 - noise / 3.0 && Sum(bottomRight) == 1.0 - noise / 3.0
  {
    bottomLeft := [noise / 3.0, noise / 3.0, noise / 3.0];
    bottomRight := [noise / 3.0, noise / 3.0, noise / 3.0];
    bottomLeft := bottomLeft[0 := 1.0 - noise];
    bottomRight := bottomRight[1 := 1.0 - noise];
    Sum3(1.0 - noise, noise / 3.0, noise / 3.0);
    Sum3(noise / 3.0, 1.0 - noise, noise / 3.0);
  }

  // ---------------------------------------------------------------------
  // Priors (`d_matrix`)
  // ---------------------------------------------------------------------

  const StateNames: seq<string> := ["S_x", "S_y", "S_color"]

  /** `get_state`: the column, the row and the colour as 0 or 1. */
  function TrueState(s: State): (r: seq<int>)
    ensures |r| == 3
  {
    [s.x, s.y, if s.rewardOnTheRight then 1 else 0]
  }

  /** Indexing a tensor of `n` entries at `i`: a negative index counts from the back, and out of range is `None` (the `IndexError`). */
  function WrapIndex(i: int, n: nat): (r: Option<nat>)
    ensures r.Some? <==> -(n as int) <= i < n
    ensures r.Some? ==> r.value < n && r.value == if i < 0 then i + n else i
  {
    if 0 <= i < n then Some(i) else if -(n as int) <= i < 0 then Some(i + n) else None
  }

  /** Whether the prior over state `i` can be built: a uniform one always; a peaked one needs two values and an index in range. */
  predicate PriorDefined(c: Config, s: State, i: nat, uniform: bool)
    requires i < 3
  {
    uniform || (Size(c, i) >= 2 && WrapIndex(TrueState(s)[i], Size(c, i)).Some?)
  }

  /** The prior over state `i`: uniform, or `1 - noise` on the true value and `noise / (n - 1)` on the others. */
  function PriorFor(c: Config, s: State, i: nat, uniform: bool, noise: real): Vec
    requires ConfigOk(c) && i < 3 && PriorDefined(c, s, i, uniform)
  {
    Agents.PriorOf(Size(c, i), uniform, noise, if uniform then 0 else WrapIndex(TrueState(s)[i], Size(c, i)).value)
  }

  /** Every prior that can be built is a distribution. */
  lemma PriorForSumsToOne(c: Config, s: State, i: nat, uniform: bool, noise: real)
    requires ConfigOk(c) && i < 3 && PriorDefined(c, s, i, uniform)
    ensures Sum(PriorFor(c, s, i, uniform, noise)) == 1.0
  {
  }

  /** One pass of the loop of `d_matrix`: the prior over state `i`, or `None` when it cannot be built. */
  method StatePrior(env: Environment, i: nat, uniform: bool, noise: real) returns (r: Option<Vec>)
    requires env.Valid() && i < 3
    ensures r.None? <==> !PriorDefined(env.Settings(), env.Snapshot(), i, uniform)
    ensures r.Some? ==> r.value == PriorFor(env.Settings(), env.Snapshot(), i, uniform, noise)
  {
    var n := [env.width, env.height, 2][i];
    if uniform {
      var prior := seq(n, _ => 1.0 / n as real);
      assert prior == Agents.Uniform(n);
      return Some(prior);
    }
    if n < 2 {
      return None;
    }
    var index := WrapIndex(TrueState(env.Snapshot())[i], n);
    if index.None? {
      return None;
    }
    var prior := seq(n, _ => noise / (n - 1) as real);
    prior := prior[index.value := 1.0 - noise];
    assert prior == Agents.Peaked(n, index.value, 1.0 - noise);
    r := Some(prior);
  }

  /**
   * `d_matrix`: one prior per hidden state, keyed by the state's name.
   * `None` is the `ZeroDivisionError` of a peaked prior over a single value
   * or the `IndexError` of a true value out of range.
   */
  method DMatrix(env: Environment, uniform: bool, noise: real) returns (r: Option<map<string, Vec>>)
    requires env.Valid()
    ensures r.None? <==> exists i :: 0 <= i < 3 && !PriorDefined(env.Settings(), env.Snapshot(), i, uniform)
    ensures r.Some? ==> r.value.Keys == {"S_x", "S_y", "S_color"}
    ensures r.Some? ==> forall i :: 0 <= i < 3 ==>
      r.value[StateNames[i]] == PriorFor(env.Settings(), env.Snapshot(), i, uniform, noise)
  {
    ghost var c, s := env.Settings(), env.Snapshot();
    var priors: map<string, Vec> := map[];
    assert StateNames[0] != StateNames[1] && StateNames[0] != StateNames[2] && StateNames[1] != StateNames[2] by {
      assert StateNames[0][2] == 'x' && StateNames[1][2] == 'y' && |StateNames[2]| == 7;
    }
    for i := 0 to 3
      invariant forall m :: 0 <= m < i ==> PriorDefined(c, s, m, uniform)
      invariant priors.Keys == set m | 0 <= m < i :: StateNames[m]
      invariant forall m :: 0 <= m < i ==> priors[StateNames[m]] == PriorFor(c, s, m, uniform, noise)
    {
      var prior := StatePrior(env, i, uniform, noise);
      if prior.None? {
        return None;
      }
      priors := priors[StateNames[i] := prior.value];
    }
    r := Some(priors);
  }

  // ---------------------------------------------------------------------
  // Observations (`pre_process`)
  // ---------------------------------------------------------------------

  /** A pixel's three channels scaled to `[0, 1]`; an all-black pixel (maximum 0) shows the "nothing" channel instead. */
  function Observation(p0: real, p1: real, p2: real): (r: Vec)
    ensures |r| == 3
  {
    var m := if p0 >= p1 && p0 >= p2 then p0 else if p1 >= p2 then p1 else p2;
    if m == 0.0 then [p0 / 255.0, p1 / 255.0, 1.0] else [p0 / 255.0, p1 / 255.0, p2 / 255.0]
  }

  /** `pre_process`: the observation of every pixel of an image `[height, width, 3]`, keyed by the pixel's name. */
  method PreProcess(obs: array3<real>) returns (res: map<string, Vec>)
    requires obs.Length2 == 3
    ensures forall k :: k in res ==> NamedBefore(k, obs.Length0, obs.Length1, 0)
    ensures forall x, y :: 0 <= x < obs.Length1 && 0 <= y < obs.Length0 ==>
      PixelName(x, y) in res && res[PixelName(x, y)] == Observation(obs[y, x, 0], obs[y, x, 1], obs[y, x, 2])
  {
    res := map[];
    for y := 0 to obs.Length0
      invariant forall k :: k in res ==> NamedBefore(k, obs.Length0, obs.Length1, 0)
      invariant forall x, y' :: 0 <= x < obs.Length1 && 0 <= y' < y ==>
        PixelName(x, y') in res && res[PixelName(x, y')] == Observation(obs[y', x, 0], obs[y', x, 1], obs[y', x, 2])
    {
      for x := 0 to obs.Length1
        invariant forall k :: k in res ==> NamedBefore(k, obs.Length0, obs.Length1, 0)
        invariant forall x', y' :: 0 <= x' < obs.Length1 && 0 <= y' < obs.Length0 && (y' < y || (y' == y && x' < x)) ==>
          PixelName(x', y') in res && res[PixelName(x', y')] == Observation(obs[y', x', 0], obs[y', x', 1], obs[y', x', 2])
      {
        var value := PixelObservation(obs, y, x);
        RowMajorNamesDiffer(x, y);
        assert NamedBefore(PixelName(x, y), obs.Length0, obs.Length1, 0) by {
          assert Before(x, y, obs.Length1, 0);
        }
        res := res[PixelName(x, y) := value];
      }
    }
  }

  /** One pass of the loops of `pre_process`: pixel `[y][x]` divided by 255, its channel 2 set to 1 when its maximum is 0. */
  method PixelObservation(obs: array3<real>, y: nat, x: nat) returns (value: Vec)
    requires y < obs.Length0 && x < obs.Length1 && obs.Length2 == 3
    ensures value == Observation(obs[y, x, 0], obs[y, x, 1], obs[y, x, 2])
  {
    var p0, p1, p2 := obs[y, x, 0], obs[y, x, 1], obs[y, x, 2];
    value := [p0 / 255.0, p1 / 255.0, p2 / 255.0];
    if p0 <= 0.0 && p1 <= 0.0 && p2 <= 0.0 && (p0 == 0.0 || p1 == 0.0 || p2 == 0.0) {
      value := value[2 := 1.0];
    }
  }

  /** The pixels visited before `(x, y)` row by row have names other than its own. */
  lemma RowMajorNamesDiffer(x: nat, y: nat)
    ensures forall x': nat, y': nat :: (y' < y || (y' == y && x' < x)) ==> PixelName(x', y') != PixelName(x, y)
  {
    forall x': nat, y': nat | y' < y || (y' == y && x' < x)
      ensures PixelName(x', y') != PixelName(x, y)
    {
      if PixelName(x', y') == PixelName(x, y) {
        PixelNameInjective(x', y', x, y);
      }
    }
  }

  /** The channel pixel `(x, y)` of a frame shows: the colour's channel on the sprite, "nothing" elsewhere. */
  function FrameChannel(s: State, x: int, y: int): nat
  {
    if x == s.x && y == s.y then Channel(s) else 2
  }

  /** On a frame of the grid world every pixel's observation is one-hot, on the channel the frame shows there. */
  lemma FrameObservationOneHot(s: State, x: int, y: int)
    ensures Observation(Pixel(s, y, x, 0), Pixel(s, y, x, 1), Pixel(s, y, x, 2)) == OneHot(3, FrameChannel(s, x, y))
  {
    var r := Observation(Pixel(s, y, x, 0), Pixel(s, y, x, 1), Pixel(s, y, x, 2));
    assert r == [r[0], r[1], r[2]];
    assert OneHot(3, FrameChannel(s, x, y)) == [OneHot(3, FrameChannel(s, x, y))[0], OneHot(3, FrameChannel(s, x, y))[1], OneHot(3, FrameChannel(s, x, y))[2]];
  }

  /**
   * The likelihoods read a colour as the channel it lights: for a sprite
   * whose colour index is the frame's channel, every pixel's likelihood
   * puts `1 - noise` exactly on the channel the pre-processed frame shows.
   */
  lemma LikelihoodMatchesFrame(s: State, x: nat, y: nat, noise: real, o: nat)
    requires s.x >= 0 && s.y >= 0 && o < 3 && noise != 2.0 / 3.0
    ensures AEntry(x, y, noise, o, s.x, s.y, Channel(s)) == 1.0 - noise
      <==> Observation(Pixel(s, y, x, 0), Pixel(s, y, x, 1), Pixel(s, y, x, 2))[o] == 1.0
  {
    FrameObservationOneHot(s, x, y);
  }

  // ---------------------------------------------------------------------
  // The bottom corners
  // ---------------------------------------------------------------------

  /** The reward `down` earns from the bottom row at column `x`, leaving the grid. */
  function ExitReward(c: Config, x: int, right: bool): real
    requires ConfigOk(c)
  {
    DownEffect(State(x, c.height - 1, 0, 0.0, right), c).0.lastR
  }

  /** From inside the grid, leaving earns the reward of the colour's side at that column. */
  lemma ExitRewardOfSide(c: Config, x: int, right: bool)
    requires ConfigOk(c) && 0 <= x < c.width
    ensures ExitReward(c, x, right) == if right then RewardOnTheRight(x, c) else RewardOnTheLeft(x, c)
  {
    var moved := State(x, c.height, 0, 0.0, right);
    assert DownEffect(State(x, c.height - 1, 0, 0.0, right), c).0.lastR == HardReward(moved, c);
    assert Clamped(moved, c).x == x;
  }

  lemma UnitRatios(w: real)
    requires w > 0.0
    ensures w / w == 1.0 && (-w) / w == -1.0
  {
  }

  /** Leaving from the bottom-left corner earns 1 when the reward is on the left and -1 when it is on the right. */
  lemma LeftCornerRewards(c: Config)
    requires ConfigOk(c) && c.width >= 2
    ensures ExitReward(c, 0, false) == 1.0 && ExitReward(c, 0, true) == -1.0
  {
    ExitRewardOfSide(c, 0, false);
    ExitRewardOfSide(c, 0, true);
    var w2 := HalfWidth(c);
    UnitRatios(w2);
    assert !(0.0 > LeftEdge(c));
    assert HalfWidth(c) - 0 as real == w2 && 0 as real - HalfWidth(c) == -w2;
  }

  /** Leaving from the bottom-right corner earns 1 when the reward is on the right and -1 when it is on the left. */
  lemma RightCornerRewards(c: Config)
    requires ConfigOk(c) && c.width >= 2
    ensures ExitReward(c, c.width - 1, true) == 1.0 && ExitReward(c, c.width - 1, false) == -1.0
  {
    ExitRewardOfSide(c, c.width - 1, false);
    ExitRewardOfSide(c, c.width - 1, true);
    var w2 := HalfWidth(c);
    UnitRatios(w2);
    var x := (c.width - 1) as real;
    assert x > LeftEdge(c);
    assert x - LeftEdge(c) == w2 && LeftEdge(c) - x == -w2;
  }

  /**
   * As written, the preference of the bottom-left pixel is strongest for
   * channel 0, which the frame shows when the reward is on the right; a
   * sprite showing it there earns -1 on leaving.
   */
  lemma PreferredLeftCornerLoses(c: Config, noise: real)
    requires ConfigOk(c) && c.width >= 2 && noise < 0.75
    ensures var s := State(0, c.height - 1, 0, 0.0, true);
      && FrameChannel(s, 0, c.height - 1) == 0
      && (forall o :: 0 <= o < 3 && o != 0 ==> Preference(noise, 0)[o] < Preference(noise, 0)[0])
      && ExitReward(c, 0, true) == -1.0
  {
    LeftCornerRewards(c);
  }

  /** The evidently intended preferences: each bottom corner prefers the channel of the colour whose reward is on its side. */
  method CMatrixIntended(noise: real) returns (bottomLeft: Vec, bottomRight: Vec)
    ensures bottomLeft == Preference(noise, Channel(State(0, 0, 0, 0.0, false)))
    ensures bottomRight == Preference(noise, Channel(State(0, 0, 0, 0.0, true)))
  {
    bottomLeft := [noise / 3.0, noise / 3.0, noise / 3.0];
    bottomRight := [noise / 3.0, noise / 3.0, noise / 3.0];
    bottomLeft := bottomLeft[1 := 1.0 - noise];
    bottomRight := bottomRight[0 := 1.0 - noise];
  }

  /**
   * With the intended preferences, a sprite sitting in a bottom corner
   * shows that corner's preferred channel exactly when leaving from there
   * earns the reward 1.
   */
  lemma IntendedCornersWin(c: Config, right: bool, corner: int)
    requires ConfigOk(c) && c.width >= 2 && (corner == 0 || corner == c.width - 1)
    ensures var s := State(corner, c.height - 1, 0, 0.0, right);
      var preferred := if corner == 0 then Channel(State(0, 0, 0, 0.0, false)) else Channel(State(0, 0, 0, 0.0, true));
      FrameChannel(s, corner, c.height - 1) == preferred <==> ExitReward(c, corner, right) == 1.0
  {
    LeftCornerRewards(c);
    RightCornerRewards(c);
  }
}
