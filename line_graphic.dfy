// Colour buffer of a line graphic (anigraph ALineGraphic.setColors): the
// per-vertex RGBA list of a polyline is turned into the per-segment layout
// the line renderer expects, where segment j carries the colours of its two
// end points j and j + 1, one after the other.

module LineGraphic {

  /**
   * The segment colours of a polyline whose vertex colours are `rgba`
   * (four channels per vertex): colour j followed by colour j + 1, for every
   * segment j. A single vertex has no segment.
   */
  function SegmentColors(rgba: seq<real>): (out: seq<real>)
    requires |rgba| >= 4 && |rgba| % 4 == 0
    ensures |out| == 2 * (|rgba| - 4)
    decreases |rgba|
  {
    if |rgba| == 4 then [] else rgba[..4] + rgba[4..8] + SegmentColors(rgba[4..])
  }

  /**
   * The block layout: for every vertex offset `i` (a multiple of 4 before
   * the last colour), output slots `2i .. 2i+3` repeat input slots
   * `i .. i+3` (colour j = i / 4) and output slots `2i+4 .. 2i+7` repeat
   * `i+4 .. i+7` (colour j + 1).
   */
  lemma {:induction false} SegmentBlock(rgba: seq<real>, i: int)
    requires |rgba| >= 4 && |rgba| % 4 == 0 && 0 <= i < |rgba| - 4 && i % 4 == 0
    ensures forall k :: 2 * i <= k < 2 * i + 8 ==> SegmentColors(rgba)[k] == rgba[k - i]
    decreases i
  {
    var out := SegmentColors(rgba);
    var rest := rgba[4..];
    assert out == rgba[..4] + rgba[4..8] + SegmentColors(rest);
    if i > 0 {
      SegmentBlock(rest, i - 4);
      forall k | 2 * i <= k < 2 * i + 8
        ensures out[k] == rgba[k - i]
      {
        assert out[k] == SegmentColors(rest)[k - 8];
        assert SegmentColors(rest)[k - 8] == rest[k - 8 - (i - 4)];
      }
    }
  }

  /**
   * `setColors`: for a whole number of colours, at least one, fills a new
   * buffer of length `2 (n - 4)` with the segment colours; every read and
   * write is in bounds.
   */
  method SetColors(rgba: array<real>) returns (colors: array<real>)
    requires rgba.Length >= 4 && rgba.Length % 4 == 0
    ensures fresh(colors)
    ensures colors[..] == SegmentColors(rgba[..])
  {
    var length := rgba.Length - 4;
    colors := new real[2 * length](_ => 0.0);
    var i := 0;
    while i < length
      invariant 0 <= i <= length && i % 4 == 0
      invariant forall k :: 0 <= k < 2 * i ==> colors[k] == SegmentColors(rgba[..])[k]
    {
      SegmentBlock(rgba[..], i);
      CopyBlock(rgba, colors, i);
      i := i + 4;
    }
  }

  /** One loop step of `setColors`: colour `i / 4` and the next one into slots `2i .. 2i+7`. */
  method CopyBlock(rgba: array<real>, colors: array<real>, i: int)
    requires rgba != colors && 0 <= i && i + 8 <= rgba.Length && 2 * i + 8 <= colors.Length
    modifies colors
    ensures forall k :: 0 <= k < colors.Length ==> colors[k] == if 2 * i <= k < 2 * i + 8 then rgba[k - i] else old(colors[k])
  {
    colors[2 * i] := rgba[i];
    colors[2 * i + 1] := rgba[i + 1];
    colors[2 * i + 2] := rgba[i + 2];
    colors[2 * i + 3] := rgba[i + 3];

    colors[2 * i + 4] := rgba[i + 4];
    colors[2 * i + 5] := rgba[i + 5];
    colors[2 * i + 6] := rgba[i + 6];
    colors[2 * i + 7] := rgba[i + 7];
  }
}
