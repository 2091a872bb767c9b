/** The value of a CSS `border-style` property: one of the ten keywords of
    section 4.2 of CSS Backgrounds and Borders Level 3, matched without regard
    to case, together with the text it was written as. */
module CssBorderStyle {
  import Wrappers

  /** The keywords, in the declaration order of the Java enum (`NoneStyle` is
      the constant `NONE`). */
  datatype Value = NoneStyle | Hidden | Dotted | Dashed | Solid | Double | Groove | Ridge | Inset | Outset

  const AllValues: seq<Value> := [NoneStyle, Hidden, Dotted, Dashed, Solid, Double, Groove, Ridge, Inset, Outset]

  /** Everything except `none` and `hidden` draws a line. */
  predicate IsVisible(v: Value)
    ensures IsVisible(v) <==> v !in {NoneStyle, Hidden}
    ensures IsVisible(v) <==> v in AllValues[2..]
  {
    match v
    case NoneStyle => false
    case Hidden => false
    case Dotted => true
    case Dashed => true
    case Solid => true
    case Double => true
    case Groove => true
    case Ridge => true
    case Inset => true
    case Outset => true
  }

  /** The name of the enum constant, as `Enum.name()` returns it. */
  function Name(v: Value): string
  {
    match v
    case NoneStyle => "NONE"
    case Hidden => "HIDDEN"
    case Dotted => "DOTTED"
    case Dashed => "DASHED"
    case Solid => "SOLID"
    case Double => "DOUBLE"
    case Groove => "GROOVE"
    case Ridge => "RIDGE"
    case Inset => "INSET"
    case Outset => "OUTSET"
  }

  /** The exceptions the value class and the outline-style parser throw.
      `HiddenNotSupported` is the outline parser's own, but it is declared
      here so that the parser's result, which also carries this class's
      errors, needs only one error type. */
  datatype CssError =
    | NoEnumConstant(name: string)   // IllegalArgumentException thrown by `Enum.valueOf`
    | NullArgument                   // NullPointerException thrown by `Objects.requireNonNull`
    | HiddenNotSupported             // IllegalArgumentException thrown by the outline-style parser

  // ---------------------------------------------------------------------------
  // Java case mapping on `char`s (UTF-16 code units in Java).

  predicate IsUpperAsciiLetter(c: char) { 'A' <= c <= 'Z' }
  predicate IsLowerAsciiLetter(c: char) { 'a' <= c <= 'z' }

  /** `Character.toUpperCase` restricted to the mappings whose image is an ASCII
      letter: `a`-`z`, dotless i (U+0131) to `I` and long s (U+017F) to `S`. */
  function UpperChar(c: char): (u: char)
    ensures IsUpperAsciiLetter(u) <==> IsUpperAsciiLetter(c) || IsLowerAsciiLetter(c) || c in {'\U{0131}', '\U{017F}'}
    ensures !IsUpperAsciiLetter(u) ==> u == c
  {
    if IsLowerAsciiLetter(c) then (c as int - 32) as char
    else if c == '\U{0131}' then 'I'
    else if c == '\U{017F}' then 'S'
    else c
  }

  /** `Character.toLowerCase` on ASCII: `A`-`Z` become `a`-`z`. */
  function LowerChar(c: char): (l: char)
    ensures IsLowerAsciiLetter(l) <==> IsUpperAsciiLetter(c) || IsLowerAsciiLetter(c)
    ensures !IsLowerAsciiLetter(l) ==> l == c
  {
    if IsUpperAsciiLetter(c) then (c as int + 32) as char else c
  }

  /** `String.toUpperCase()`: one character at a time. */
  function ToUpperCase(s: string): (r: string)
    ensures |r| == |s|
    ensures forall i :: 0 <= i < |s| ==> r[i] == UpperChar(s[i])
  {
    if s == [] then [] else [UpperChar(s[0])] + ToUpperCase(s[1..])
  }

  /** `String.toLowerCase()`: one character at a time. */
  function ToLowerCase(s: string): (r: string)
    ensures |r| == |s|
    ensures forall i :: 0 <= i < |s| ==> r[i] == LowerChar(s[i])
  {
    if s == [] then [] else [LowerChar(s[0])] + ToLowerCase(s[1..])
  }

  // ---------------------------------------------------------------------------
  // The enum lookup and the value class.

  /** `Value.valueOf(name)`: the constant whose name is exactly `name`. */
  function ValueOf(name: string): (r: Wrappers.Result<Value, CssError>)
    ensures r.Ok? ==> Name(r.value) == name
    ensures r.Err? ==> r.error == NoEnumConstant(name) && forall v :: Name(v) != name
  {
    if name == "NONE" then Wrappers.Ok(NoneStyle)
    else if name == "HIDDEN" then Wrappers.Ok(Hidden)
    else if name == "DOTTED" then Wrappers.Ok(Dotted)
    else if name == "DASHED" then Wrappers.Ok(Dashed)
    else if name == "SOLID" then Wrappers.Ok(Solid)
    else if name == "DOUBLE" then Wrappers.Ok(Double)
    else if name == "GROOVE" then Wrappers.Ok(Groove)
    else if name == "RIDGE" then Wrappers.Ok(Ridge)
    else if name == "INSET" then Wrappers.Ok(Inset)
    else if name == "OUTSET" then Wrappers.Ok(Outset)
    else Wrappers.Err(NoEnumConstant(name))
  }

  /** An immutable `CssBorderStyleValue`: the text it stands for and the keyword. */
  datatype BorderStyleValue = BorderStyleValue(cssString: string, value: Value)
  {
    function GetValue(): (v: Value)
      ensures this == BorderStyleValue(cssString, v)
    {
      value
    }

    function ToCssString(): (s: string)
      ensures this == BorderStyleValue(s, value)
    {
      cssString
    }

    /** `toString()` is `toCSSString()`. */
    function ToString(): (s: string)
      ensures s == ToCssString() && this == BorderStyleValue(s, value)
    {
      ToCssString()
    }
  }

  /** The two-argument constructor: both arguments must be non-null and are
      stored as given. */
  function Create(cssString: Wrappers.Option<string>, value: Wrappers.Option<Value>): (r: Wrappers.Result<BorderStyleValue, CssError>)
    ensures r.Ok? <==> cssString.Some? && value.Some?
    ensures r.Ok? ==> r.value.ToCssString() == cssString.value && r.value.GetValue() == value.value
    ensures r.Err? ==> r.error == NullArgument
  {
    match (cssString, value)
    case (Some(s), Some(v)) => Wrappers.Ok(BorderStyleValue(s, v))
    case _ => Wrappers.Err(NullArgument)
  }

  /** The constructor from an enum constant: the CSS text is the constant's
      name in lower case. */
  function FromValue(v: Value): (r: BorderStyleValue)
    ensures r.GetValue() == v
    ensures ToUpperCase(r.ToCssString()) == Name(v)
    ensures forall i :: 0 <= i < |r.ToCssString()| ==> IsLowerAsciiLetter(r.ToCssString()[i])
  {
    LowerOfNameIsLower(v);
    BorderStyleValue(ToLowerCase(Name(v)), v)
  }

  /** The constructor from CSS text: the keyword whose name equals the text in
      upper case; any other text, including text with white space around a
      keyword, is refused. */
  function FromCssString(s: string): (r: Wrappers.Result<BorderStyleValue, CssError>)
    ensures r.Ok? <==> exists v :: Name(v) == ToUpperCase(s)
    ensures r.Ok? ==> Name(r.value.GetValue()) == ToUpperCase(s) && r.value == FromValue(r.value.GetValue())
    ensures r.Err? ==> r.error == NoEnumConstant(ToUpperCase(s))
  {
    match ValueOf(ToUpperCase(s))
    case Ok(v) => Wrappers.Ok(FromValue(v))
    case Err(e) => Wrappers.Err(e)
  }

  // ---------------------------------------------------------------------------
  // Lemmas.

  /** Every constant's name is made of upper-case ASCII letters. */
  lemma NameIsUpperAscii(v: Value)
    ensures |Name(v)| > 0
    ensures forall i :: 0 <= i < |Name(v)| ==> IsUpperAsciiLetter(Name(v)[i])
  {
  }

  lemma LowerOfNameIsLower(v: Value)
    ensures forall i :: 0 <= i < |ToLowerCase(Name(v))| ==> IsLowerAsciiLetter(ToLowerCase(Name(v))[i])
    ensures ToUpperCase(ToLowerCase(Name(v))) == Name(v)
  {
    NameIsUpperAscii(v);
    UpperOfLower(Name(v));
  }

  /** Upper-casing undoes lower-casing on upper-case ASCII letters. */
  lemma UpperOfLower(s: string)
    requires forall i :: 0 <= i < |s| ==> IsUpperAsciiLetter(s[i])
    ensures ToUpperCase(ToLowerCase(s)) == s
  {
  }

  /** Distinct constants have distinct names. */
  lemma NameInjective(a: Value, b: Value)
    requires Name(a) == Name(b)
    ensures a == b
  {
  }

  /** The CSS text of a value built from a constant parses back to that same
      value: `new CssBorderStyleValue(new CssBorderStyleValue(v).toCSSString())`
      holds `v` and the same text. */
  lemma RoundTrip(v: Value)
    ensures FromCssString(FromValue(v).ToCssString()) == Wrappers.Ok(FromValue(v))
  {
    var r := FromCssString(FromValue(v).ToCssString());
    assert Name(v) == ToUpperCase(FromValue(v).ToCssString());
    assert r.Ok?;
    NameInjective(r.value.GetValue(), v);
  }

  /** There is no trimming: text that starts or ends with white space is
      refused, even around a keyword. */
  lemma SurroundingWhiteSpaceRejected(s: string)
    requires |s| > 0 && (s[0] <= ' ' || s[|s| - 1] <= ' ')
    ensures FromCssString(s).Err?
  {
    var u := ToUpperCase(s);
    assert !IsUpperAsciiLetter(u[0]) || !IsUpperAsciiLetter(u[|u| - 1]);
    forall v: Value ensures Name(v) != u {
      NameIsUpperAscii(v);
    }
  }
}
