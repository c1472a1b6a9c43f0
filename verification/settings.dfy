/** The appearance controls of the settings screen (app/settings.tsx): the
    custom hex-colour field, the preset colour swatches and the three
    theme-mode buttons. */
module Settings {
  import opened ThemeSlice
  import ThemeHook

  predicate IsHexDigit(c: char) {
    ('0' <= c <= '9') || ('a' <= c <= 'f') || ('A' <= c <= 'F')
  }

  predicate AllHexDigits(s: string) {
    forall k :: 0 <= k < |s| ==> IsHexDigit(s[k])
  }

  /** One repetition of the group `[0-9A-F]{3}` (case-insensitive). */
  predicate HexGroup(g: string) {
    |g| == 3 && AllHexDigits(g)
  }

  /** The pattern `/^#([0-9A-F]{3}){1,2}$/i`, written after its shape: a
      '#', then the three-digit group once or twice. */
  predicate MatchesHexPattern(s: string) {
    |s| >= 1 && s[0] == '#' &&
    (HexGroup(s[1..]) || (|s| == 7 && HexGroup(s[1..4]) && HexGroup(s[4..])))
  }

  /** A hex colour as section 5.2 of CSS Color Module Level 4 defines it:
      '#' followed by 3, 4, 6 or 8 hexadecimal digits. */
  predicate CssHexColor(s: string) {
    |s| >= 1 && s[0] == '#' && |s| - 1 in {3, 4, 6, 8} && AllHexDigits(s[1..])
  }

  /** The pattern accepts exactly the CSS hex colours without an alpha
      digit: the 3- and 6-digit forms. */
  lemma PatternIsCssWithoutAlpha(s: string)
    ensures MatchesHexPattern(s) <==> CssHexColor(s) && |s| != 5 && |s| != 9
  {
    if |s| == 7 && s[0] == '#' && AllHexDigits(s[1..]) {
      assert s[1..4] == s[1..][..3];
      assert s[4..] == s[1..][3..];
    }
    if |s| == 7 && s[0] == '#' && HexGroup(s[1..4]) && HexGroup(s[4..]) {
      forall k | 0 <= k < 6
        ensures IsHexDigit(s[1..][k])
      {
        if k < 3 {
          assert s[1..][k] == s[1..4][k];
        } else {
          assert s[1..][k] == s[4..][k - 3];
        }
      }
    }
  }

  /** The `test` in `handleApplyCustomColor`, as a left-to-right scan. */
  method CheckHexColor(s: string) returns (ok: bool)
    ensures ok <==> MatchesHexPattern(s)
  {
    PatternIsCssWithoutAlpha(s);
    if (|s| != 4 && |s| != 7) || s[0] != '#' {
      return false;
    }
    var i := 1;
    while i < |s|
      invariant 1 <= i <= |s|
      invariant forall k :: 1 <= k < i ==> IsHexDigit(s[k])
    {
      if !IsHexDigit(s[i]) {
        assert !IsHexDigit(s[1..][i - 1]);
        return false;
      }
      i := i + 1;
    }
    assert AllHexDigits(s[1..]);
    return true;
  }

  /** `handleApplyCustomColor`: an accepted string goes unchanged to
      `setCustomAccentColor`; a rejected one raises the "Invalid Color"
      alert and leaves the theme as it was. */
  method ApplyCustomColor(s: ThemeState, hex: string) returns (r: ThemeState, alerted: bool)
    ensures MatchesHexPattern(hex) ==> !alerted && r.accentColor == hex && r.mode == Custom
    ensures !MatchesHexPattern(hex) ==> alerted && r == s
  {
    var ok := CheckHexColor(hex);
    if ok {
      r := ThemeHook.SetCustomAccentColor(s, hex);
      alerted := false;
    } else {
      r := s;
      alerted := true;
    }
  }

  /** `PRESET_COLORS`: green, blue, red, white, black. */
  const PresetColors: seq<string> := ["#1DB954", "#007AFF", "#FF3B30", "#FFFFFF", "#000000"]

  /** Every preset would also pass the custom-colour check. */
  lemma PresetsAreValid()
    ensures forall i :: 0 <= i < |PresetColors| ==> MatchesHexPattern(PresetColors[i])
  {
    forall i | 0 <= i < |PresetColors|
      ensures MatchesHexPattern(PresetColors[i])
    {
      var c := PresetColors[i];
      assert c[1..] == c[1..4] + c[4..];
      assert HexGroup(c[1..4]) && HexGroup(c[4..]);
    }
  }

  /** Pressing a swatch sets exactly that colour (and custom mode). */
  function PressPreset(s: ThemeState, i: nat): (r: ThemeState)
    requires i < |PresetColors|
    ensures r.accentColor == PresetColors[i] && r.mode == Custom
    ensures MatchesHexPattern(r.accentColor)
  {
    PresetsAreValid();
    ThemeHook.SetCustomAccentColor(s, PresetColors[i])
  }

  datatype ModeButton = LightButton | DarkButton | CustomButton

  /** The mode each button passes to `toggleThemeMode`. */
  function ButtonMode(b: ModeButton): Mode {
    match b
    case LightButton => Light
    case DarkButton => Dark
    case CustomButton => Custom
  }

  /** A button is drawn highlighted when the current mode is its mode. */
  predicate Highlighted(s: ThemeState, b: ModeButton) {
    s.mode == ButtonMode(b)
  }

  /** Pressing a mode button sets its mode, keeps the accent, and leaves
      that button, and only that one, highlighted. */
  function PressModeButton(s: ThemeState, b: ModeButton): (r: ThemeState)
    ensures r.accentColor == s.accentColor
    ensures Highlighted(r, b)
    ensures forall c: ModeButton :: Highlighted(r, c) ==> c == b
  {
    ThemeHook.ToggleThemeMode(s, ButtonMode(b))
  }
}
