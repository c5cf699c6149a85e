/** The command line's reading of `--mode`: the current values and the two deprecated
    aliases for low-noise. */
module Cli {
  import opened Wrappers
  import opened Text
  import opened Config

  /** The outcome of `parse_mode_alias`: the mode, and whether a deprecation notice
      was printed for it. */
  datatype ModeChoice = ModeChoice(mode: Mode, deprecated: bool)

  predicate IsDeprecatedAlias(m: string) { m == "enhanced" || m == "active" }

  /** `parse_mode_alias`; `None` where the enum constructor raises `ValueError`. */
  function ParseModeAlias(rawMode: string): (r: Option<ModeChoice>)
    ensures var m := Lower(Strip(rawMode));
      && (r.Some? && r.value.deprecated <==> IsDeprecatedAlias(m))
      && (IsDeprecatedAlias(m) ==> r == Some(ModeChoice(LowNoise, true)))
      && (!IsDeprecatedAlias(m) ==> (r.Some? <==> ModeFromValue(m).Some?))
      && (r.Some? && !r.value.deprecated ==> ModeValue(r.value.mode) == m)
  {
    var m := Lower(Strip(rawMode));
    if m == "enhanced" then Some(ModeChoice(LowNoise, true))
    else if m == "active" then Some(ModeChoice(LowNoise, true))
    else match ModeFromValue(m)
      case Some(mode) => Some(ModeChoice(mode, false))
      case None => None
  }

  /** Every mode is chosen by its own value, whatever the case of its letters and
      the surrounding blanks, and without a deprecation notice: `w` is any word that
      lower-cases to the value, such as `Low-Noise` or `PASSIVE`. */
  lemma ModeValueRoundTrip(mode: Mode, before: string, w: string, after: string)
    requires Lower(w) == ModeValue(mode)
    requires forall i :: 0 <= i < |before| ==> before[i] == ' '
    requires forall i :: 0 <= i < |after| ==> after[i] == ' '
    ensures ParseModeAlias(before + w + after) == Some(ModeChoice(mode, false))
  {
    var v := ModeValue(mode);
    ModeValueCase(mode);
    assert |w| == |v| && v != [];
    assert !IsSpace(v[0]) && !IsSpace(v[|v| - 1]);
    assert LowerChar(w[0]) == v[0] && LowerChar(w[|w| - 1]) == v[|v| - 1];
    LowerCharSpace(w[0]);
    LowerCharSpace(w[|w| - 1]);
    StripPadded(before, w, after);
    assert Lower(Strip(before + w + after)) == v;
  }

  /** A mode's value, upper-cased, is a word the lower-casing turns back into that
      value, which names no deprecated alias and reads back as the mode. */
  lemma ModeValueCase(mode: Mode)
    ensures var v := Upper(ModeValue(mode));
      && v != [] && !IsSpace(v[0]) && !IsSpace(v[|v| - 1])
      && Lower(v) == ModeValue(mode)
      && !IsDeprecatedAlias(ModeValue(mode))
      && ModeFromValue(ModeValue(mode)) == Some(mode)
  {
    var v := ModeValue(mode);
    assert Lower(Upper(v)) == v;
  }

  /** Blanks around a word that starts and ends with a letter are stripped. */
  lemma StripPadded(before: string, w: string, after: string)
    requires w != [] && !IsSpace(w[0]) && !IsSpace(w[|w| - 1])
    requires forall i :: 0 <= i < |before| ==> before[i] == ' '
    requires forall i :: 0 <= i < |after| ==> after[i] == ' '
    ensures Strip(before + w + after) == w
  {
    TrimLeftSpaces(before, w + after);
    assert before + w + after == before + (w + after);
    TrimRightSpaces(w, after);
  }

  lemma {:induction false} TrimLeftSpaces(pad: string, s: string)
    requires s != [] && !IsSpace(s[0])
    requires forall i :: 0 <= i < |pad| ==> pad[i] == ' '
    ensures TrimLeft(pad + s, IsSpace) == s
    decreases |pad|
  {
    if pad != [] {
      assert (pad + s)[1..] == pad[1..] + s;
      TrimLeftSpaces(pad[1..], s);
    }
  }

  lemma {:induction false} TrimRightSpaces(s: string, pad: string)
    requires s != [] && !IsSpace(s[|s| - 1])
    requires forall i :: 0 <= i < |pad| ==> pad[i] == ' '
    ensures TrimRight(s + pad, IsSpace) == s
    decreases |pad|
  {
    if pad != [] {
      assert (s + pad)[..|s + pad| - 1] == s + pad[..|pad| - 1];
      TrimRightSpaces(s, pad[..|pad| - 1]);
    } else {
      assert s + pad == s;
    }
  }
}
