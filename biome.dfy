/** Height-to-colour mapping: three bands on the height rescaled to 0..100,
    with a small random jitter supplied by the caller. */
module Biome {

  /** An RGBA colour with real channels (Unity's Color). */
  datatype Color = Color(r: real, g: real, b: real, a: real)

  /** `new Color()`: every channel, alpha included, is zero. */
  const Blank: Color := Color(0.0, 0.0, 0.0, 0.0)

  /** Band boundaries, as percentages of the maximum height. */
  const Snow: real := 100.0
  const Mountain: real := 70.0
  const Valley: real := 25.0

  /** The jitter is drawn from [-0.1, 0.1]. */
  predicate ValidJitter(jitter: real) {
    -0.1 <= jitter <= 0.1
  }

  predicate InUnit(v: real) {
    0.0 <= v <= 1.0
  }

  /** The colour of a cell of the given composite height. The result's
      alpha stays at zero in every band. */
  function EnvironmentColorFromHeight(height: real, jitter: real): (c: Color)
    requires ValidJitter(jitter)
    ensures c.a == 0.0
    // valley: fixed blue, green 0.3 above red (a yellow-green hue)
    ensures height * 100.0 < Valley ==> c.b == 0.2 && c.g - c.r == 0.3
    ensures 0.0 <= height * 100.0 < Valley ==> 0.3 < c.r <= 0.65 && 0.6 < c.g <= 0.95
    // mountain: grey, between 0.24 and 0.9
    ensures Valley <= height * 100.0 < Mountain ==> c.r == c.g == c.b && 0.24 <= c.r < 0.9
    // snow: a fixed near-white, whatever the height and the jitter
    ensures Mountain <= height * 100.0 <= Snow ==> c == Color(0.9, 0.9, 0.9, 0.0)
    // above the snow cap the blank colour is returned
    ensures height * 100.0 > Snow ==> c == Blank
    ensures 0.0 <= height <= 1.0 ==> InUnit(c.r) && InUnit(c.g) && InUnit(c.b)
  {
    var correctedHeight := height * 100.0;
    var factor := correctedHeight / 50.0 + jitter;
    if correctedHeight < Valley then
      Color(0.6 - 0.5 * factor, 0.9 - 0.5 * factor, 0.2, 0.0)
    else if correctedHeight < Mountain then
      Color(0.6 * factor, 0.6 * factor, 0.6 * factor, 0.0)
    else if correctedHeight <= Snow then
      Color(0.9, 0.9, 0.9, 0.0)
    else
      Blank
  }

  /** Within the valley band the colour darkens as the height rises, for a
      fixed jitter. */
  lemma ValleyDarkensWithHeight(h1: real, h2: real, jitter: real)
    requires ValidJitter(jitter)
    requires h1 <= h2 && h2 * 100.0 < Valley
    ensures EnvironmentColorFromHeight(h2, jitter).r <= EnvironmentColorFromHeight(h1, jitter).r
    ensures EnvironmentColorFromHeight(h2, jitter).g <= EnvironmentColorFromHeight(h1, jitter).g
  {
  }

  /** Within the mountain band the grey brightens as the height rises, for a
      fixed jitter. */
  lemma MountainBrightensWithHeight(h1: real, h2: real, jitter: real)
    requires ValidJitter(jitter)
    requires Valley <= h1 * 100.0 && h1 <= h2 && h2 * 100.0 < Mountain
    ensures EnvironmentColorFromHeight(h1, jitter).r <= EnvironmentColorFromHeight(h2, jitter).r
  {
  }

  /** The jitter moves no channel by more than 0.06 from the jitter-free
      colour of the same height: 0.5 * 0.1 in the valley, 0.6 * 0.1 on the
      mountain, nothing in the snow or above it. */
  lemma JitterIsBounded(height: real, jitter: real)
    requires ValidJitter(jitter)
    ensures var c, c0 := EnvironmentColorFromHeight(height, jitter), EnvironmentColorFromHeight(height, 0.0);
            -0.06 <= c.r - c0.r <= 0.06 && -0.06 <= c.g - c0.g <= 0.06 && -0.06 <= c.b - c0.b <= 0.06
  {
  }
}
