/** The parser of the CSS `outline-style` property of CSS Basic User
    Interface Level 4. It accepts the `border-style` keywords except
    `hidden`, and in addition `auto`, which it treats as `solid`. */
module CssOutlineStyle {
  import Wrappers
  import opened CssBorderStyle

  const PropertyOutlineStyle: string := "outline-style"

  /** The name of the property this parser handles. */
  function GetPropertyName(): (name: string)
    ensures name == "outline-style"
  {
    PropertyOutlineStyle
  }

  /** The key under which a parsed value is stored: by default the property
      name, and this parser keeps the default. */
  function GetAttributeKey(): (key: string)
    ensures key == "outline-style"
  {
    GetPropertyName()
  }

  /** The number of leading characters that `String.trim()` removes: every
      code unit up to and including U+0020 counts as white space. */
  function TrimStart(s: string): (k: nat)
    ensures k <= |s|
    ensures forall i :: 0 <= i < k ==> s[i] <= ' '
    ensures k < |s| ==> s[k] > ' '
  {
    if s == [] || s[0] > ' ' then 0 else 1 + TrimStart(s[1..])
  }

  /** The length of `s` once its trailing white space is removed. */
  function TrimEnd(s: string): (k: nat)
    ensures k <= |s|
    ensures forall i :: k <= i < |s| ==> s[i] <= ' '
    ensures k > 0 ==> s[k - 1] > ' '
  {
    if s == [] || s[|s| - 1] > ' ' then |s| else TrimEnd(s[..|s| - 1])
  }

  /** `String.trim()`: the longest slice of `s` that neither starts nor ends
      with white space, obtained by removing white space at both ends. */
  function Trim(s: string): (r: string)
    ensures r == [] || (r[0] > ' ' && r[|r| - 1] > ' ')
    ensures exists i, j :: 0 <= i <= j <= |s| && r == s[i..j]
              && (forall k :: 0 <= k < i ==> s[k] <= ' ')
              && (forall k :: j <= k < |s| ==> s[k] <= ' ')
  {
    var i, j := TrimStart(s), TrimEnd(s);
    if i < j then
      assert s[i..j][0] == s[i];
      s[i..j]
    else
      s[j..j]
  }

  /** The text the `auto` and `hidden` checks compare: trimmed, then lower-cased. */
  function Keyword(s: string): string
  {
    ToLowerCase(Trim(s))
  }

  /** `parse` as written: only the two special checks trim their input; every
      other input goes to the `border-style` string constructor untrimmed. */
  function Parse(s: string): (r: Wrappers.Result<BorderStyleValue, CssError>)
    ensures Keyword(s) == "auto" ==> r == Wrappers.Ok(BorderStyleValue(s, Solid))
    ensures Keyword(s) == "hidden" ==> r == Wrappers.Err(HiddenNotSupported)
    ensures Keyword(s) !in {"auto", "hidden"} ==> r == FromCssString(s)
  {
    if Keyword(s) == "auto" then
      Create(Wrappers.Some(s), Wrappers.Some(Solid))
    else if Keyword(s) == "hidden" then
      Wrappers.Err(HiddenNotSupported)
    else
      FromCssString(s)
  }

  /** The dotless i (U+0131) upper-cases to `I` but stays itself when
      lower-cased, so `hıdden` passes the `hidden` check and then parses as
      HIDDEN. */
  lemma ParseAcceptsDotlessHidden()
    ensures Parse("h\U{0131}dden") == Wrappers.Ok(FromValue(Hidden))
  {
    var s := "h\U{0131}dden";
    var u := ToUpperCase(s);
    assert u[0] == 'H' && u[1] == 'I' && u[2] == 'D' && u[3] == 'D' && u[4] == 'E' && u[5] == 'N';
    assert u == "HIDDEN";
    assert Trim(s) == s by {
      assert TrimStart(s) == 0 && TrimEnd(s) == |s|;
    }
    assert Keyword(s) != "auto" && Keyword(s) != "hidden" by {
      assert Keyword(s)[1] == '\U{0131}';
    }
    assert FromCssString(s) == Wrappers.Ok(FromValue(Hidden));
  }

  /** Text made of ASCII characters only. */
  predicate IsAscii(s: string) { forall i :: 0 <= i < |s| ==> s[i] < '\U{0080}' }

  /** On ASCII text the `hidden` check is enough: a successful parse never
      yields HIDDEN. */
  lemma ParseNeverHiddenOnAscii(s: string)
    requires IsAscii(s)
    ensures Parse(s).Ok? ==> Parse(s).value.GetValue() != Hidden
  {
    if ToUpperCase(s) == "HIDDEN" {
      AsciiHiddenKeyword(s);
    }
  }

  /** An ASCII text that upper-cases to `HIDDEN` is `hidden` in some mix of
      cases, so trimming leaves it alone and lower-casing gives `hidden`. */
  lemma AsciiHiddenKeyword(s: string)
    requires IsAscii(s) && ToUpperCase(s) == "HIDDEN"
    ensures Keyword(s) == "hidden"
  {
    var u, l := ToUpperCase(s), ToLowerCase(s);
    assert |s| == 6;
    forall i | 0 <= i < 6 ensures s[i] > ' ' && l[i] == LowerChar(u[i]) {
      AsciiLetterCase(s[i]);
    }
    assert l == "hidden" by {
      assert u[0] == 'H' && u[1] == 'I' && u[2] == 'D' && u[3] == 'D' && u[4] == 'E' && u[5] == 'N';
    }
    assert TrimStart(s) == 0 && TrimEnd(s) == |s|;
    assert Trim(s) == s;
  }

  /** An ASCII character that upper-cases to a letter is that letter in one
      of its two cases. */
  lemma AsciiLetterCase(c: char)
    requires c < '\U{0080}' && IsUpperAsciiLetter(UpperChar(c))
    ensures c > ' ' && LowerChar(c) == LowerChar(UpperChar(c))
  {
  }

  /** `parse` as evidently intended: any text that would parse as HIDDEN is
      refused, whatever characters spell it; all other text is parsed as
      before. */
  function ParseCorrected(s: string): (r: Wrappers.Result<BorderStyleValue, CssError>)
    ensures r.Ok? ==> r.value.GetValue() != Hidden
    ensures ToUpperCase(s) == "HIDDEN" ==> r == Wrappers.Err(HiddenNotSupported)
    ensures ToUpperCase(s) != "HIDDEN" ==> r == Parse(s)
  {
    if ToUpperCase(s) == "HIDDEN" then
      Wrappers.Err(HiddenNotSupported)
    else
      var r := Parse(s);
      assert r.Ok? && Keyword(s) != "auto" ==> Name(r.value.GetValue()) == ToUpperCase(s);
      r
  }

  /** The correction changes nothing on ASCII text. */
  lemma CorrectedAgreesOnAscii(s: string)
    requires IsAscii(s)
    ensures ParseCorrected(s) == Parse(s)
  {
    if ToUpperCase(s) == "HIDDEN" {
      AsciiHiddenKeyword(s);
    }
  }
}
