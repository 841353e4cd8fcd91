/** Choosing a base colour by rejection sampling (the `while` loop of
    `create_color_variations`). The random source is the stream `draws` of
    values that `random.randint(0, 255)` returns, in order; `random_color`
    takes three of them, so candidate colours start at `at`, `at + 3`, ... */
module Palette {
  import opened Colors

  datatype Option<T> = None | Some(value: T)

  /** `any(color_similarity(c, avoid, threshold) for avoid in avoid_colors)`. */
  predicate AnySimilar(c: Color, avoid: seq<Color>, threshold: int)
  {
    exists i :: 0 <= i < |avoid| && Similar(c, avoid[i], threshold)
  }

  /** The position in `draws` of the first candidate colour, from `at` on,
      that is similar to no avoided colour; None if the stream runs out
      before one turns up. */
  function FirstAccepted(draws: seq<Channel>, at: nat, avoid: seq<Color>, threshold: int): (r: Option<nat>)
    ensures r.Some? ==> at <= r.value && r.value + 3 <= |draws| && (r.value - at) % 3 == 0
    ensures r.Some? ==> !AnySimilar(RandomColor(draws, r.value), avoid, threshold)
    decreases |draws| - at
  {
    if |draws| < at + 3 then None
    else if !AnySimilar(RandomColor(draws, at), avoid, threshold) then Some(at)
    else FirstAccepted(draws, at + 3, avoid, threshold)
  }

  /** Every candidate before the accepted one, or every candidate at all
      when none is accepted, is similar to some avoided colour: the loop
      takes the first acceptable candidate and skips none. */
  lemma {:induction false} RejectedBeforeFirst(draws: seq<Channel>, at: nat, avoid: seq<Color>, threshold: int, k: nat)
    requires at <= k && k + 3 <= |draws| && (k - at) % 3 == 0
    requires FirstAccepted(draws, at, avoid, threshold).None? || k < FirstAccepted(draws, at, avoid, threshold).value
    ensures AnySimilar(RandomColor(draws, k), avoid, threshold)
    decreases |draws| - at
  {
    if k > at {
      assert AnySimilar(RandomColor(draws, at), avoid, threshold);
      assert (k - (at + 3)) % 3 == 0;
      RejectedBeforeFirst(draws, at + 3, avoid, threshold, k);
    }
  }

  /** The sampling loop: draw a candidate, and redraw while it is similar to
      some avoided colour. Returns the accepted colour and the position of the
      next unused draw. */
  method PickBaseColor(draws: seq<Channel>, at: nat, avoid: seq<Color>, threshold: int)
    returns (base: Color, next: nat)
    requires FirstAccepted(draws, at, avoid, threshold).Some?
    ensures next == FirstAccepted(draws, at, avoid, threshold).value + 3
    ensures next <= |draws| && base == RandomColor(draws, next - 3)
    ensures forall i :: 0 <= i < |avoid| ==> SquaredDistance(base, avoid[i]) >= threshold * threshold
  {
    base := RandomColor(draws, at);
    next := at + 3;
    while AnySimilar(base, avoid, threshold)
      invariant at + 3 <= next <= |draws|
      invariant base == RandomColor(draws, next - 3)
      invariant FirstAccepted(draws, next - 3, avoid, threshold) == FirstAccepted(draws, at, avoid, threshold)
      decreases |draws| - next
    {
      base := RandomColor(draws, next);
      next := next + 3;
    }
  }

  /** The `n` base colours that `n` successive runs of the sampling loop
      accept, starting at `at`, and the position after the last of them;
      None if the stream runs out first. */
  function Sample(draws: seq<Channel>, at: nat, avoid: seq<Color>, threshold: int, n: nat)
    : (s: Option<(seq<Color>, nat)>)
    ensures s.Some? ==> |s.value.0| == n && at <= s.value.1
    decreases n
  {
    if n == 0 then Some(([], at))
    else
      match FirstAccepted(draws, at, avoid, threshold)
      case None => None
      case Some(j) =>
        match Sample(draws, j + 3, avoid, threshold, n - 1)
        case None => None
        case Some(rest) => Some(([RandomColor(draws, j)] + rest.0, rest.1))
  }

  /** One step of `Sample`: the first of `n` samples is the first accepted
      candidate, and the remaining `n - 1` follow it in the stream. */
  lemma SampleStep(draws: seq<Channel>, at: nat, avoid: seq<Color>, threshold: int, n: nat,
                   bases: seq<Color>, end: nat)
    requires n > 0 && Sample(draws, at, avoid, threshold, n) == Some((bases, end))
    ensures FirstAccepted(draws, at, avoid, threshold).Some?
    ensures var j := FirstAccepted(draws, at, avoid, threshold).value;
            && bases[0] == RandomColor(draws, j)
            && Sample(draws, j + 3, avoid, threshold, n - 1) == Some((bases[1..], end))
  {
  }

  /** Every sampled base colour keeps at least `threshold` away from every
      avoided colour (squared distance at least `threshold ** 2`). */
  lemma {:induction false} SampleAvoids(draws: seq<Channel>, at: nat, avoid: seq<Color>, threshold: int, n: nat, k: nat, i: nat)
    requires Sample(draws, at, avoid, threshold, n).Some?
    requires k < n && i < |avoid|
    ensures SquaredDistance(Sample(draws, at, avoid, threshold, n).value.0[k], avoid[i]) >= threshold * threshold
    decreases n
  {
    var s := Sample(draws, at, avoid, threshold, n).value;
    SampleStep(draws, at, avoid, threshold, n, s.0, s.1);
    var j := FirstAccepted(draws, at, avoid, threshold).value;
    if k == 0 {
      assert !Similar(RandomColor(draws, j), avoid[i], threshold);
    } else {
      SampleAvoids(draws, j + 3, avoid, threshold, n - 1, k - 1, i);
    }
  }

  /** With nothing to avoid (`avoid_colors` of None or []), the first
      candidate is taken without a redraw. */
  lemma NothingToAvoid(draws: seq<Channel>, at: nat, threshold: int)
    requires at + 3 <= |draws|
    ensures FirstAccepted(draws, at, [], threshold) == Some(at)
  {
  }
}
