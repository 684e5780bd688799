/**
 * The string handling of the player page: the extension strip applied to an
 * uploaded file's name, the `trim` test on a new playlist's name, the MIME-type
 * prefix test, and the `m:ss` rendering of a time in seconds.
 */
module TextFormat {
  import opened PlayerTypes

  // ---------------------------------------------------------------------------
  // File-name extension: `name.replace(/\.[^/.]+$/, '')`
  // ---------------------------------------------------------------------------

  /** A character of the class `[^/.]`. */
  predicate IsExtensionChar(c: char)
  {
    c != '.' && c != '/'
  }

  /**
   * The regular expression `\.[^/.]+$` matches `name` at position `p`: a dot,
   * then one or more characters that are neither a dot nor a slash, up to the end.
   */
  predicate ExtensionAt(name: string, p: int)
  {
    && 0 <= p < |name| - 1
    && name[p] == '.'
    && forall j :: p < j < |name| ==> IsExtensionChar(name[j])
  }

  /** The position of the last dot or slash of `s`, if it has one. */
  function LastDotOrSlash(s: string): (r: Option<nat>)
    ensures r.None? ==> forall j :: 0 <= j < |s| ==> IsExtensionChar(s[j])
    ensures r.Some? ==> r.value < |s| && !IsExtensionChar(s[r.value])
    ensures r.Some? ==> forall j :: r.value < j < |s| ==> IsExtensionChar(s[j])
  {
    if |s| == 0 then None
    else if !IsExtensionChar(s[|s| - 1]) then Some(|s| - 1)
    else LastDotOrSlash(s[..|s| - 1])
  }

  /** The expression matches at most one position. */
  lemma {:induction false} ExtensionAtUnique(name: string, p: int, q: int)
    requires ExtensionAt(name, p) && ExtensionAt(name, q)
    ensures p == q
  {
  }

  /**
   * The name shown for an uploaded file: the match of `\.[^/.]+$`, if any,
   * is cut off; otherwise the name is kept whole.
   */
  function StripExtension(name: string): (r: string)
    ensures forall p :: ExtensionAt(name, p) ==> r == name[..p]
    ensures (forall p :: !ExtensionAt(name, p)) ==> r == name
  {
    match LastDotOrSlash(name)
    case None => name
    case Some(p) =>
      if name[p] == '.' && p < |name| - 1 then
        assert ExtensionAt(name, p);
        name[..p]
      else name
  }

  /**
   * The result is the name itself or a proper prefix of it that the dot and a
   * non-empty extension follow.
   */
  lemma StripExtensionShape(name: string)
    ensures var r := StripExtension(name);
            || r == name
            || (&& |r| < |name| - 1
                && name == r + name[|r|..]
                && name[|r|] == '.'
                && forall j :: |r| < j < |name| ==> IsExtensionChar(name[j]))
  {
    var r := StripExtension(name);
    if r != name {
      var p :| ExtensionAt(name, p);
      assert r == name[..p];
    }
  }

  /** The cases the page relies on, worked out from the contract. */
  lemma StripExtensionExamples()
    ensures StripExtension("song.mp3") == "song"
    ensures StripExtension("a.b.c") == "a.b"
    ensures StripExtension("file.") == "file."
    ensures StripExtension("track") == "track"
    ensures StripExtension("v1.0/readme") == "v1.0/readme"
  {
    assert ExtensionAt("song.mp3", 4);
    assert "song.mp3"[..4] == "song";
    assert ExtensionAt("a.b.c", 3);
    assert "a.b.c"[..3] == "a.b";
    assert forall p :: !ExtensionAt("file.", p) by {
      forall p | 0 <= p < 4 ensures "file."[p] != '.' {
      }
    }
    assert forall p :: !ExtensionAt("track", p) by {
      forall p | 0 <= p < 5 ensures "track"[p] != '.' {
      }
    }
    assert forall p :: !ExtensionAt("v1.0/readme", p) by {
      forall p | 0 <= p < 10 && "v1.0/readme"[p] == '.'
        ensures !IsExtensionChar("v1.0/readme"[4])
      {
      }
    }
  }

  // ---------------------------------------------------------------------------
  // `String.prototype.trim` and the blank-name test
  // ---------------------------------------------------------------------------

  /**
   * A character `trim` removes: the ECMAScript WhiteSpace set (tab, vertical
   * tab, form feed, space, no-break space, the byte-order mark and the
   * space separators of Unicode) and the LineTerminator set (line feed,
   * carriage return, line and paragraph separators).
   */
  predicate IsWhiteSpace(c: char)
  {
    var n := c as int;
    || 0x09 <= n <= 0x0D
    || n == 0x20 || n == 0xA0 || n == 0x1680
    || 0x2000 <= n <= 0x200A
    || n == 0x2028 || n == 0x2029 || n == 0x202F || n == 0x205F
    || n == 0x3000 || n == 0xFEFF
  }

  /** Leading white space removed. */
  function TrimStart(s: string): string
  {
    if s == [] || !IsWhiteSpace(s[0]) then s else TrimStart(s[1..])
  }

  /** Trailing white space removed. */
  function TrimEnd(s: string): string
  {
    if s == [] || !IsWhiteSpace(s[|s| - 1]) then s else TrimEnd(s[..|s| - 1])
  }

  /** `TrimStart` drops a prefix made only of white space and stops at the first other character. */
  lemma {:induction false} TrimStartShape(s: string)
    ensures |TrimStart(s)| <= |s|
    ensures TrimStart(s) == s[|s| - |TrimStart(s)|..]
    ensures forall i :: 0 <= i < |s| - |TrimStart(s)| ==> IsWhiteSpace(s[i])
    ensures TrimStart(s) != [] ==> !IsWhiteSpace(TrimStart(s)[0])
  {
    if s != [] && IsWhiteSpace(s[0]) {
      var rest := s[1..];
      TrimStartShape(rest);
      var r := TrimStart(rest);
      assert TrimStart(s) == r;
      assert rest[|rest| - |r|..] == s[|s| - |r|..];
      forall i | 0 < i < |s| - |r| ensures IsWhiteSpace(s[i]) {
        assert s[i] == rest[i - 1];
      }
    }
  }

  /** `TrimEnd` drops a suffix made only of white space and stops at the last other character. */
  lemma {:induction false} TrimEndShape(s: string)
    ensures |TrimEnd(s)| <= |s|
    ensures TrimEnd(s) == s[..|TrimEnd(s)|]
    ensures forall i :: |TrimEnd(s)| <= i < |s| ==> IsWhiteSpace(s[i])
    ensures TrimEnd(s) != [] ==> !IsWhiteSpace(TrimEnd(s)[|TrimEnd(s)| - 1])
  {
    if s != [] && IsWhiteSpace(s[|s| - 1]) {
      var front := s[..|s| - 1];
      TrimEndShape(front);
      var r := TrimEnd(front);
      assert TrimEnd(s) == r;
      assert front[..|r|] == s[..|r|];
      forall i | |r| <= i < |s| - 1 ensures IsWhiteSpace(s[i]) {
        assert s[i] == front[i];
      }
    }
  }

  /** `s.trim()`. */
  function Trim(s: string): string
  {
    TrimEnd(TrimStart(s))
  }

  /** `!s.trim()` holds exactly when every character of `s` is white space. */
  lemma TrimEmptyIffBlank(s: string)
    ensures Trim(s) == [] <==> forall i :: 0 <= i < |s| ==> IsWhiteSpace(s[i])
  {
    var front := TrimStart(s);
    TrimStartShape(s);
    TrimEndShape(front);
    if front != [] {
      assert front[0] == s[|s| - |front|];
    }
  }

  /** `s.startsWith(prefix)`. */
  predicate StartsWith(s: string, prefix: string)
  {
    |prefix| <= |s| && s[..|prefix|] == prefix
  }

  // ---------------------------------------------------------------------------
  // `formatTime`: minutes, a colon, and the seconds padded to two digits
  // ---------------------------------------------------------------------------

  predicate IsDigit(c: char)
  {
    '0' <= c <= '9'
  }

  predicate AllDigits(s: string)
  {
    forall i :: 0 <= i < |s| ==> IsDigit(s[i])
  }

  function DigitChar(d: nat): (c: char)
    requires d < 10
    ensures IsDigit(c) && (c as int) - ('0' as int) == d
  {
    ('0' as int + d) as char
  }

  function DigitValue(c: char): nat
    requires IsDigit(c)
  {
    (c as int) - ('0' as int)
  }

  /** `n.toString()` for a whole number: its decimal digits, without leading zeros. */
  function Decimal(n: nat): (r: string)
    ensures |r| >= 1 && AllDigits(r)
    ensures |r| > 1 ==> r[0] != '0'
  {
    if n < 10 then [DigitChar(n)] else Decimal(n / 10) + [DigitChar(n % 10)]
  }

  /** The number a string of decimal digits denotes. */
  function DecimalValue(s: string): nat
    requires AllDigits(s)
  {
    if s == [] then 0 else 10 * DecimalValue(s[..|s| - 1]) + DigitValue(s[|s| - 1])
  }

  /** Reading back the digits of `n` gives `n`. */
  lemma {:induction false} DecimalRoundTrip(n: nat)
    ensures DecimalValue(Decimal(n)) == n
  {
    if n >= 10 {
      DecimalRoundTrip(n / 10);
      var s := Decimal(n);
      assert s[..|s| - 1] == Decimal(n / 10);
    }
  }

  /** Numbers below one hundred have one digit below ten and two otherwise. */
  lemma DecimalLength(n: nat)
    requires n < 100
    ensures |Decimal(n)| == if n < 10 then 1 else 2
  {
  }

  /** `s.padStart(2, '0')`. */
  function PadStart2(s: string): string
  {
    if |s| >= 2 then s else seq(2 - |s|, _ => '0') + s
  }

  /** `formatTime(seconds)` for a whole, non-negative number of seconds. */
  function FormatTime(seconds: nat): string
  {
    Decimal(seconds / 60) + ":" + PadStart2(Decimal(seconds % 60))
  }

  /**
   * Reads an `m:ss` string: digits, a colon, then exactly two digits naming a
   * value below sixty.
   */
  function ParseTime(s: string): Option<nat>
  {
    var n := |s|;
    if n >= 4 && s[n - 3] == ':' && AllDigits(s[..n - 3]) && IsDigit(s[n - 2]) && IsDigit(s[n - 1]) then
      var secs := 10 * DigitValue(s[n - 2]) + DigitValue(s[n - 1]);
      if secs < 60 then Some(DecimalValue(s[..n - 3]) * 60 + secs) else None
    else None
  }

  /** A value below sixty pads to two digits that read back as the value. */
  lemma PaddedSecondsRoundTrip(secs: nat)
    requires secs < 60
    ensures var ss := PadStart2(Decimal(secs));
            |ss| == 2 && IsDigit(ss[0]) && IsDigit(ss[1]) && 10 * DigitValue(ss[0]) + DigitValue(ss[1]) == secs
  {
    DecimalLength(secs);
    DecimalRoundTrip(secs);
    var ss := PadStart2(Decimal(secs));
    if secs < 10 {
      assert ss == ['0'] + Decimal(secs);
    } else {
      assert ss == Decimal(secs);
      assert Decimal(secs)[..1] == Decimal(secs / 10);
    }
  }

  /** The rendered time reads back as the same number of seconds. */
  lemma FormatTimeRoundTrip(seconds: nat)
    ensures ParseTime(FormatTime(seconds)) == Some(seconds)
  {
    var mins, secs := seconds / 60, seconds % 60;
    var m, ss := Decimal(mins), PadStart2(Decimal(secs));
    PaddedSecondsRoundTrip(secs);
    DecimalRoundTrip(mins);
    var s := FormatTime(seconds);
    assert s == m + [':'] + ss;
    assert s[..|s| - 3] == m;
    assert s[|s| - 2] == ss[0] && s[|s| - 1] == ss[1];
  }

  /** The seconds field is always two digits after the colon. */
  lemma FormatTimeShape(seconds: nat)
    ensures var s := FormatTime(seconds);
            && |s| >= 4 && s[|s| - 3] == ':'
            && AllDigits(s[..|s| - 3]) && IsDigit(s[|s| - 2]) && IsDigit(s[|s| - 1])
  {
    DecimalLength(seconds % 60);
    var s := FormatTime(seconds);
    assert s[..|s| - 3] == Decimal(seconds / 60);
  }

  /** Distinct times render differently. */
  lemma FormatTimeInjective(a: nat, b: nat)
    requires FormatTime(a) == FormatTime(b)
    ensures a == b
  {
    FormatTimeRoundTrip(a);
    FormatTimeRoundTrip(b);
  }

  /** Two renderings worked out from the definition. */
  lemma FormatTimeExamples()
    ensures FormatTime(213) == "3:33"
    ensures FormatTime(65) == "1:05"
  {
  }
}
