/** A preset offered when drawing a region of interest: a label and an RGB
    colour whose three components are kept within [0, 255]. Two presets are the
    same preset when their labels are equal. */
module RoiPresets {
  import opened JavaText

  /** Math.min(Math.max(v, 0), 255). */
  function Clamp(v: int): (r: int)
    ensures 0 <= r <= 255
    ensures 0 <= v <= 255 ==> r == v
    ensures v < 0 ==> r == 0
    ensures v > 255 ==> r == 255
  {
    var value := if v > 0 then v else 0;
    if value < 255 then value else 255
  }

  /** Each component clamped. */
  function Clamped(c: seq<int>): (r: seq<int>)
    ensures |r| == |c| && forall i :: 0 <= i < |c| ==> r[i] == Clamp(c[i])
  {
    seq(|c|, i requires 0 <= i < |c| => Clamp(c[i]))
  }

  /** Whether setColor takes a colour: a non-null array of three. */
  predicate Accepted(src: array?<int>)
  {
    src != null && src.Length == 3
  }

  /** String.hashCode: s[0]*31^(n-1) + ... + s[n-1] in int arithmetic. */
  function StringHash(s: string): int
  {
    if s == [] then 0 else Wrap32(31 * StringHash(s[..|s| - 1]) + s[|s| - 1] as int)
  }

  /** Objects.hash(label). */
  function LabelHash(roiLabel: Option<string>): int
  {
    Wrap32(31 + (if roiLabel.None? then 0 else StringHash(roiLabel.value)))
  }

  class RoiPreset {
    /** The preset's own colour array, never handed out. */
    const color: array<int>
    var roiLabel: Option<string>

    /** Three components, each within [0, 255]. */
    predicate Valid()
      reads this, color
    {
      color.Length == 3 && forall i :: 0 <= i < 3 ==> 0 <= color[i] <= 255
    }

    /** RoiPreset(): label "" and colour [0,0,0]. */
    constructor Default()
      ensures Valid() && fresh(color) && color[..] == [0, 0, 0] && roiLabel == Some("")
    {
      color := new int[3](_ => 0);
      roiLabel := Some("");
      new;
      assert color[..] == [color[0], color[1], color[2]];
    }

    /** RoiPreset(label, color): the colour clamped when it has three
        components, otherwise left at [0,0,0]. */
    constructor (roiLabel: Option<string>, src: array?<int>)
      ensures Valid() && fresh(color) && this.roiLabel == roiLabel
      ensures color[..] == if Accepted(src) then Clamped(old(src[..])) else [0, 0, 0]
    {
      color := new int[3](_ => 0);
      this.roiLabel := roiLabel;
      new;
      assert color[..] == [color[0], color[1], color[2]];
      ClampAndFill(src);
    }

    /** clampAndFillColorArray: each of three components clamped into this
        preset's array; anything other than three components is ignored. */
    method ClampAndFill(src: array?<int>)
      requires Valid()
      modifies color
      ensures Valid()
      ensures color[..] == if Accepted(src) then Clamped(old(src[..])) else old(color[..])
    {
      if src != null && src.Length == 3 {
        ghost var s := src[..];
        for i := 0 to src.Length
          invariant color[..i] == Clamped(s)[..i]
          invariant forall k :: i <= k < 3 ==> src[k] == s[k] && color[k] == old(color[k])
          invariant forall k :: 0 <= k < 3 ==> 0 <= color[k] <= 255
        {
          var value := if src[i] > 0 then src[i] else 0;
          color[i] := if value < 255 then value else 255;
        }
      }
    }

    method SetColor(src: array?<int>)
      requires Valid()
      modifies color
      ensures Valid()
      ensures color[..] == if Accepted(src) then Clamped(old(src[..])) else old(color[..])
    {
      ClampAndFill(src);
    }

    method SetLabel(l: Option<string>)
      modifies this
      ensures roiLabel == l
    {
      roiLabel := l;
    }

    /** getColor: a new array with the same components. */
    method GetColor() returns (c: array<int>)
      ensures fresh(c) && c[..] == color[..]
    {
      c := new int[color.Length];
      for i := 0 to color.Length
        invariant c[..i] == color[..i]
      {
        c[i] := color[i];
      }
    }

    /** equals: the same object, or a preset with an equal label. */
    function Equals(other: RoiPreset?): (r: bool)
      reads this, other
      ensures r <==> other != null && roiLabel == other.roiLabel
    {
      if this == other then true
      else if other == null then false
      else roiLabel == other.roiLabel
    }

    function HashCode(): (r: int)
      reads this
      ensures IsInt32(r)
    {
      LabelHash(roiLabel)
    }
  }

  /** equals is reflexive and symmetric, and presets it calls equal have equal
      hash codes, whatever their colours. */
  lemma EqualsHashConsistent(a: RoiPreset, b: RoiPreset)
    ensures a.Equals(a)
    ensures a.Equals(b) == b.Equals(a)
    ensures a.Equals(b) ==> a.HashCode() == b.HashCode()
  {
  }

  /** Clamping twice is clamping once. */
  lemma ClampedIdempotent(c: seq<int>)
    ensures Clamped(Clamped(c)) == Clamped(c)
  {
  }

  /** Three components already within range are stored unchanged. */
  lemma ClampedInRange(c: seq<int>)
    requires forall i :: 0 <= i < |c| ==> 0 <= c[i] <= 255
    ensures Clamped(c) == c
  {
  }
}
