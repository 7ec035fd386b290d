/**
 * The text leaf of a formula: the cell that holds one name, number, operator,
 * label or prompt.  The module models what such a cell stores (the input
 * substitutions and the shortened form of long numbers), how its label style
 * follows the configuration, the glyph tables it is drawn with, and its exports
 * to plain text, Matlab, TeX, MathML, OMML, RTF and XML.
 *
 * The exports are pure functions of a value describing the cell (Leaf), of the
 * configuration (Config) and of what the cell reads from its neighbours
 * (Context).  The class TextCell at the end holds the mutable fields and the
 * operations that update them.
 */
module TextCell {
  import opened Wrappers
  import opened Strings
  import opened Greek

  // ---------------------------------------------------------------------
  // Styles, cell types, configuration

  /**
   * The text styles.  OtherStyle stands for any value of the style
   * enumeration that the text cell code does not name.
   */
  datatype TextStyle =
    | DefaultStyle | Variable | Number | FunctionName | SpecialConstant | GreekConstant
    | QuotedString | Input | MainPrompt | OtherPrompt | Label | UserLabel | Highlight
    | Warning | Error | Text | Heading6 | Heading5 | Subsubsection | Subsection
    | Section | Title | Outdated | OtherStyle

  /** The cell types the worksheet tells apart. */
  datatype CellType =
    | DefaultType | InputType | MainPromptType | PromptType | LabelType | WarningType
    | ErrorType | TextType | Heading6Type | Heading5Type | SubsubsectionType
    | SubsectionType | SectionType | TitleType

  /** The styles of formula material: they all give the default cell type. */
  predicate IsMathStyle(style: TextStyle)
  {
    style in {DefaultStyle, Variable, Number, FunctionName, SpecialConstant, GreekConstant,
              QuotedString, Highlight, Outdated, OtherStyle}
  }

  predicate IsLabelStyle(style: TextStyle)
  {
    style == Label || style == UserLabel
  }

  /** The cell type the constructor derives from the style. */
  function TypeOfStyle(style: TextStyle): CellType
  {
    match style
    case Input => InputType
    case MainPrompt => MainPromptType
    case OtherPrompt => PromptType
    case Label => LabelType
    case UserLabel => LabelType
    case Warning => WarningType
    case Error => ErrorType
    case Text => TextType
    case Heading6 => Heading6Type
    case Heading5 => Heading5Type
    case Subsubsection => SubsubsectionType
    case Subsection => SubsectionType
    case Section => SectionType
    case Title => TitleType
    case _ => DefaultType
  }

  /**
   * The style-to-type map: every formula style gives the default type, both
   * label styles give the label type, and every other style has a type of its
   * own that no second style shares.
   */
  lemma TypeOfStyleClasses(s: TextStyle, t: TextStyle)
    ensures TypeOfStyle(s) == DefaultType <==> IsMathStyle(s)
    ensures TypeOfStyle(s) == LabelType <==> IsLabelStyle(s)
    ensures TypeOfStyle(s) == TypeOfStyle(t) && !IsMathStyle(s) && !IsLabelStyle(s) ==> s == t
  {
  }

  /** The configuration settings a text cell reads. */
  datatype Config = Config(
    displayedDigits: nat,
    useUserLabels: bool,
    hideMultiplicationSign: bool,
    keepPercent: bool,
    latin2Greek: bool)

  /** What a text cell holds, as its exports see it. */
  datatype Leaf = Leaf(
    text: string,
    displayedText: string,
    userDefinedLabel: string,
    altCopyText: string,
    toolTip: string,
    style: TextStyle,
    isHidden: bool,
    isHidableMultSign: bool,
    suppressMultiplicationDot: bool,
    dontEscapeOpeningParenthesis: bool,
    forceBreakLine: bool,
    breakLine: bool,
    hardLineBreak: bool)

  /**
   * What an export reads from a neighbouring cell: its style, whether a line
   * breaks in front of it, whether it starts a hard line, and its plain-text
   * and TeX forms.
   */
  datatype Neighbour = Neighbour(style: TextStyle, breakLineHere: bool, hardLineBreak: bool, plain: string, tex: string)

  /** The cells before and after this one; None is a missing neighbour. */
  datatype Context = Context(previous: Option<Neighbour>, next: Option<Neighbour>)

  /**
   * The collaborators the exports call but that are not modelled: XML and RTF
   * escaping, and the integer code of a style.
   */
  datatype Collaborators = Collaborators(xml: string -> string, rtf: string -> string, styleCode: TextStyle -> int)

  const MinusSign: char := '\U{2212}'
  const RightArrow: char := '\U{2192}'
  const LongArrow: char := '\U{2794}'
  const MiddleDot: char := '\U{00B7}'
  const InvisibleTimes: string := "&#8290;"

  /** The cell is not shown: hidden, or a multiplication sign the configuration hides. */
  predicate Hidden(leaf: Leaf, cfg: Config)
  {
    leaf.isHidden || (cfg.hideMultiplicationSign && leaf.isHidableMultSign)
  }

  /** The user-defined label in parentheses when it is to be shown, else `t`. */
  function ShownText(leaf: Leaf, cfg: Config, t: string): string
  {
    if cfg.useUserLabels && leaf.userDefinedLabel != "" then "(" + leaf.userDefinedLabel + ")" else t
  }

  // ---------------------------------------------------------------------
  // Setting a value

  /** SetValue's rewriting of a new text: newlines dropped, ASCII arrows made arrow glyphs. */
  function InputSubstitutions(t: string): string
  {
    var noNewline := ReplaceAll(t, "\n", "");
    var long := ReplaceAll(noNewline, "-->", [LongArrow]);
    var spaced := ReplaceAll(long, " -->", [LongArrow]);
    var letArrow := ReplaceAll(spaced, [' ', MinusSign, RightArrow, ' '], [LongArrow]);
    var short := ReplaceAll(letArrow, "->", [RightArrow]);
    ReplaceAll(short, [MinusSign, '>'], [RightArrow])
  }

  /** The plain-text exports' rewriting back: glyph minus and arrows spelled in ASCII. */
  function CopySubstitutions(t: string): string
  {
    ReplaceAll(ReplaceAll(ReplaceAll(t, [MinusSign], "-"), [LongArrow], "-->"), [RightArrow], "->")
  }

  /** A text free of newlines, the glyph minus and both arrow glyphs. */
  predicate PlainInput(t: string)
  {
    '\n' !in t && MinusSign !in t && RightArrow !in t && LongArrow !in t
  }

  /** The copy substitutions undo the input substitutions on plain input. */
  lemma ArrowRoundTrip(t: string)
    requires PlainInput(t)
    ensures CopySubstitutions(InputSubstitutions(t)) == t
  {
    MissingCharUnchanged(t, '\n', "");
    var long := ReplaceAll(t, "-->", [LongArrow]);
    ReplaceAllLeavesNoMatch(t, "-->", LongArrow);
    if HasSub(long, " -->") {
      assert " -->" == [' '] + "-->";
      HasSubDropFirst(long, ' ', "-->");
    }
    ReplaceAllMissing(long, " -->", [LongArrow]);
    ReplaceAllKeepsAbsent(t, "-->", [LongArrow], MinusSign);
    ReplaceAllKeepsAbsent(t, "-->", [LongArrow], RightArrow);
    var letArrow := [' ', MinusSign, RightArrow, ' '];
    if HasSub(long, letArrow) {
      assert letArrow == [' '] + [MinusSign, RightArrow, ' '];
      HasSubDropFirst(long, ' ', [MinusSign, RightArrow, ' ']);
      assert [MinusSign, RightArrow, ' '] == [MinusSign] + [RightArrow, ' '];
      HasSubHead(long, MinusSign, [RightArrow, ' ']);
    }
    ReplaceAllMissing(long, letArrow, [LongArrow]);
    var short := ReplaceAll(long, "->", [RightArrow]);
    ReplaceAllKeepsAbsent(long, "->", [RightArrow], MinusSign);
    if HasSub(short, [MinusSign, '>']) {
      assert [MinusSign, '>'] == [MinusSign] + ">";
      HasSubHead(short, MinusSign, ">");
    }
    ReplaceAllMissing(short, [MinusSign, '>'], [RightArrow]);
    assert InputSubstitutions(t) == short;
    MissingCharUnchanged(short, MinusSign, "-");
    ReplaceCharIsMap(short, LongArrow, "-->");
    ReplaceCharIsMap(MapChar(short, LongArrow, "-->"), RightArrow, "->");
    MapCharCommute(short, LongArrow, "-->", RightArrow, "->");
    UndoReplace(long, "->", RightArrow);
    UndoReplace(t, "-->", LongArrow);
  }

  /** The displayed text: the gamma and psi functions show as capital Greek letters. */
  function DisplayFor(text: string, style: TextStyle): (r: string)
    ensures r != text ==> style == FunctionName && (text == "gamma" || text == "psi") && |r| == 1
  {
    if style == FunctionName && text == "gamma" then "\U{0393}"
    else if style == FunctionName && text == "psi" then "\U{03A8}"
    else text
  }

  // ---------------------------------------------------------------------
  // Long numbers

  /** A number is shown as its first digits, a note on the digits left out, and its last digits. */
  datatype NumberParts = NumberParts(start: string, ellipsis: string, end: string)

  /** How many digits are kept at each end: a third of the displayed digits, at most 30. */
  function KeptDigits(displayedDigits: nat): nat
  {
    if displayedDigits / 3 > 30 then 30 else displayedDigits / 3
  }

  /** The note that replaces `n` left-out digits. */
  function DigitsNote(n: nat): string
  {
    "[" + NatToString(n) + " digits]"
  }

  /** SetValue's split of a number's displayed text. */
  function Truncate(displayed: string, displayedDigits: nat): NumberParts
  {
    if |displayed| > displayedDigits then
      var left := KeptDigits(displayedDigits);
      NumberParts(Left(displayed, left), DigitsNote(|displayed| - 2 * left), Right(displayed, left))
    else NumberParts("", "", "")
  }

  /**
   * A number longer than the displayed digits is cut into a head and a tail of
   * `KeptDigits` characters each, with a note that states exactly how many
   * digits lie between them; a number that fits has three empty parts.
   */
  lemma TruncateSplits(displayed: string, displayedDigits: nat)
    ensures var p := Truncate(displayed, displayedDigits);
      var left := KeptDigits(displayedDigits);
      if |displayed| > displayedDigits then
        2 * left < |displayed| && left <= 30 &&
        p.start == displayed[..left] && p.end == displayed[|displayed| - left..] &&
        p.ellipsis == DigitsNote(|displayed[left..|displayed| - left]|) &&
        displayed == p.start + displayed[left..|displayed| - left] + p.end &&
        ParseNat(p.ellipsis[1..|p.ellipsis| - 8]) == |displayed| - 2 * left
      else p == NumberParts("", "", "")
  {
    if |displayed| > displayedDigits {
      var left := KeptDigits(displayedDigits);
      DigitsNoteCount(|displayed| - 2 * left);
      assert displayed == displayed[..left] + displayed[left..|displayed| - left] + displayed[|displayed| - left..];
    }
  }

  /** The count in a note reads back as the number of digits left out. */
  lemma DigitsNoteCount(n: nat)
    ensures var e := DigitsNote(n); |e| > 9 && ParseNat(e[1..|e| - 8]) == n
  {
    var e := DigitsNote(n);
    assert e[1..|e| - 8] == NatToString(n);
    ParseNatToString(n);
  }

  /** With six displayed digits, a twelve-digit number keeps two digits at each end. */
  lemma TruncateTwelveDigits()
    ensures Truncate("123456789012", 6) == NumberParts("12", "[8 digits]", "12")
  {
    assert NatToString(8) == "8";
  }

  // ---------------------------------------------------------------------
  // Label style and recalculation

  /**
   * The style switch at the start of a recalculation: an automatic label
   * becomes a user label when user labels are wanted and there is one, and a
   * user label becomes automatic when user labels are not wanted.
   */
  function SwitchLabelStyle(style: TextStyle, useUserLabels: bool, userDefinedLabel: string): TextStyle
  {
    var s := if style == UserLabel && !useUserLabels then Label else style;
    if s == Label && useUserLabels && userDefinedLabel != "" then UserLabel else s
  }

  /** The text cell's own reasons to recalculate, besides the general cell's. */
  predicate NeedsRecalculation(cellNeeds: bool, style: TextStyle, cfg: Config, userDefinedLabel: string, displayedDigitsOld: int)
  {
    cellNeeds
    || (style == UserLabel && !cfg.useUserLabels)
    || (style == Label && cfg.useUserLabels && userDefinedLabel != "")
    || (style == Number && displayedDigitsOld != cfg.displayedDigits as int)
  }

  /**
   * The switch leaves non-label styles alone, settles label styles (a second
   * switch changes nothing), removes both label reasons to recalculate, and
   * makes a label a user label exactly when user labels are wanted and the
   * label is user-defined or already was a user label.
   */
  lemma SwitchLabelStyleSettles(style: TextStyle, cfg: Config, userDefinedLabel: string, displayedDigitsOld: int)
    ensures var s := SwitchLabelStyle(style, cfg.useUserLabels, userDefinedLabel);
      (!IsLabelStyle(style) ==> s == style) &&
      (IsLabelStyle(style) ==>
        (IsLabelStyle(s) && (s == UserLabel <==> cfg.useUserLabels && (userDefinedLabel != "" || style == UserLabel)))) &&
      SwitchLabelStyle(s, cfg.useUserLabels, userDefinedLabel) == s &&
      (NeedsRecalculation(false, s, cfg, userDefinedLabel, displayedDigitsOld) <==>
        s == Number && displayedDigitsOld != cfg.displayedDigits as int)
  {
  }

  // ---------------------------------------------------------------------
  // Small queries

  /** IsOperator: the text is a substring of the four ASCII operators (the empty text is) or the glyph minus. */
  predicate IsOperator(text: string)
  {
    HasSub("+*/-", text) || text == [MinusSign]
  }

  /** The operator texts are exactly the runs of the four ASCII operators, the empty one included, and the glyph minus. */
  lemma IsOperatorTexts(text: string)
    ensures IsOperator(text) <==>
      text in {"", "+", "*", "/", "-", "+*", "*/", "/-", "+*/", "*/-", "+*/-", [MinusSign]}
  {
    var s0, s1, s2, s3, s4 := "+*/-", "*/-", "/-", "-", "";
    assert s0[1..] == s1 && s1[1..] == s2 && s2[1..] == s3 && s3[1..] == s4;
    assert HasSub(s0, text) <==> (|text| <= 4 && s0[..|text|] == text) || HasSub(s1, text);
    assert HasSub(s1, text) <==> (|text| <= 3 && s1[..|text|] == text) || HasSub(s2, text);
    assert HasSub(s2, text) <==> (|text| <= 2 && s2[..|text|] == text) || HasSub(s3, text);
    assert HasSub(s3, text) <==> (|text| <= 1 && s3[..|text|] == text) || HasSub(s4, text);
    assert HasSub(s4, text) <==> |text| == 0;
    if |text| == 1 {
      assert s0[..1] == "+" && s1[..1] == "*" && s2[..1] == "/" && s3[..1] == "-";
    } else if |text| == 2 {
      assert s0[..2] == "+*" && s1[..2] == "*/" && s2[..2] == "/-";
    } else if |text| == 3 {
      assert s0[..3] == "+*/" && s1[..3] == "*/-";
    } else if |text| == 4 {
      assert s0[..4] == "+*/-";
    }
  }

  /** The argument a diff cell gets from its variable: the text, then the order one. */
  function GetDiffPart(text: string): (r: string)
    ensures |r| == |text| + 3 && r[0] == ',' && r[1..|r| - 2] == text && r[|r| - 2..] == ",1"
  {
    "," + text + ",1"
  }

  /** The variable and the order read back: split at commas, the part is an empty field, the variable, and 1. */
  lemma DiffPartFields(text: string)
    requires ',' !in text
    ensures Split(GetDiffPart(text), ',') == ["", text, "1"]
  {
    assert GetDiffPart(text) == "" + [','] + (text + [','] + "1");
    SplitField("", ',', text + [','] + "1");
    SplitField(text, ',', "1");
    SplitWhole("1", ',');
  }

  /** A short number is a last cell of fewer than four characters. */
  predicate IsShortNum(hasNext: bool, text: string)
  {
    !hasNext && |text| < 4
  }

  /** A short number is never shortened further when at least three digits are displayed. */
  lemma ShortNumberNotTruncated(text: string, displayedDigits: nat)
    requires IsShortNum(false, text) && displayedDigits >= 3
    ensures Truncate(text, displayedDigits) == NumberParts("", "", "")
  {
  }

  // ---------------------------------------------------------------------
  // Plain text and Matlab

  /** The characters a variable or function name must quote in plain text. */
  const Reserved: string := "\\'\"()[]-{}^+*/&\U{00A7}?:;=#<>$"
  /** The same for Matlab, where the minus sign is not quoted. */
  const MatlabReserved: string := "\\'\"()[]{}^+*/&\U{00A7}?:;=#<>$"

  lemma ReservedDistinct()
    ensures Distinct(Reserved) && Reserved[0] == '\\' && '\\' in Reserved
  {
    var a, b := "\\'\"()[]-{}^+", "*/&\U{00A7}?:;=#<>$";
    assert Reserved == a + b;
    assert forall i, j :: 0 <= i < |a| && 0 <= j < |b| ==> a[i] != b[j];
    assert Distinct(a);
    assert Distinct(b);
    DistinctConcat(a, b);
  }

  lemma MatlabReservedDistinct()
    ensures Distinct(MatlabReserved) && MatlabReserved[0] == '\\' && '\\' in MatlabReserved
  {
    var a, b := "\\'\"()[]{}^+", "*/&\U{00A7}?:;=#<>$";
    assert MatlabReserved == a + b;
    assert forall i, j :: 0 <= i < |a| && 0 <= j < |b| ==> a[i] != b[j];
    assert Distinct(a);
    assert Distinct(b);
    DistinctConcat(a, b);
  }

  /** Every character of the name is reserved, and none is a space. */
  predicate AllReserved(name: string, reserved: string)
  {
    forall i :: 0 <= i < |name| ==> name[i] != ' ' && name[i] in reserved
  }

  /** The text the plain-text export starts from. */
  function CopyText(leaf: Leaf, cfg: Config): string
  {
    if leaf.altCopyText != "" then leaf.altCopyText
    else CopySubstitutions(ShownText(leaf, cfg, leaf.text))
  }

  /** The text the Matlab export starts from: %e, %i and %pi become e, i and pi. */
  function MatlabCopyText(leaf: Leaf, cfg: Config): string
  {
    if leaf.altCopyText != "" then leaf.altCopyText
    else
      var t := CopySubstitutions(ShownText(leaf, cfg, leaf.text));
      if t == "%e" then "e" else if t == "%i" then "i" else if t == "%pi" then "pi" else t
  }

  /**
   * The escaping step: every reserved character, the backslash first, is
   * replaced by itself behind a backslash, one reserved character after the
   * other; a trailing opening parenthesis may be kept as it is.
   */
  function QuoteName(text: string, keepParen: bool, reserved: string): string
  {
    if keepParen && |text| > 0 && text[|text| - 1] == '(' then EscapeEach(text[..|text| - 1], reserved) + "("
    else EscapeEach(text, reserved)
  }

  /** The name is quoted unless it is an operator name; `guarded` exempts names of one character. */
  function QuoteUnlessOperator(leaf: Leaf, text: string, reserved: string, guarded: bool): string
  {
    if (guarded && |leaf.text| <= 1) || AllReserved(leaf.text, reserved) then text
    else QuoteName(text, leaf.dontEscapeOpeningParenthesis, reserved)
  }

  /** The style-dependent part shared by the plain-text and Matlab exports. */
  function StyledCopy(leaf: Leaf, text: string, reserved: string, guarded: bool): string
  {
    match leaf.style
    case Variable => QuoteUnlessOperator(leaf, text, reserved, guarded)
    case FunctionName => QuoteUnlessOperator(leaf, text, reserved, guarded)
    case QuotedString => "\"" + text + "\""
    case Label => TrimRight(text) + "\t"
    case UserLabel => TrimRight(text) + "\t"
    case MainPrompt => TrimRight(text) + "\t"
    case OtherPrompt => TrimRight(text) + "\t"
    case _ => text
  }

  /** A line break is due in front of the next cell. */
  predicate NextBreaks(ctx: Context)
  {
    ctx.next.Some? && ctx.next.value.breakLineHere
  }

  function LineEnd(ctx: Context): string
  {
    if NextBreaks(ctx) then "\n" else ""
  }

  /** The plain-text export without its line end. */
  function PlainBody(leaf: Leaf, cfg: Config): string
  {
    StyledCopy(leaf, CopyText(leaf, cfg), Reserved, true)
  }

  /** ToString. */
  function ToString(leaf: Leaf, cfg: Config, ctx: Context): string
  {
    PlainBody(leaf, cfg) + LineEnd(ctx)
  }

  /** The Matlab export without its line end. */
  function MatlabBody(leaf: Leaf, cfg: Config): string
  {
    StyledCopy(leaf, MatlabCopyText(leaf, cfg), MatlabReserved, false)
  }

  /** ToMatlab. */
  function ToMatlab(leaf: Leaf, cfg: Config, ctx: Context): string
  {
    MatlabBody(leaf, cfg) + LineEnd(ctx)
  }

  /**
   * A text set through SetValue comes back unchanged from a default-style
   * cell with no alternative copy text, no shown user label and no line break
   * after it, provided it holds no newline, glyph minus or arrow glyph.
   */
  lemma ToStringRoundTrip(t: string, leaf: Leaf, cfg: Config, ctx: Context)
    requires PlainInput(t) && leaf.text == InputSubstitutions(t)
    requires leaf.style == DefaultStyle && leaf.altCopyText == ""
    requires !(cfg.useUserLabels && leaf.userDefinedLabel != "") && !NextBreaks(ctx)
    ensures ToString(leaf, cfg, ctx) == t
  {
    ArrowRoundTrip(t);
  }

  /** Escaping a name and unescaping it again gives the name back. */
  lemma EscapeEachUndone(text: string, reserved: string)
    requires |reserved| > 0 && reserved[0] == '\\' && Distinct(reserved)
    ensures EscapeEach(text, reserved) == Escape(text, reserved)
    ensures Unescape(EscapeEach(text, reserved), reserved) == text
  {
    EscapeEachIsEscape(text, reserved);
    UnescapeEscape(text, "", reserved);
    assert Escape(text, reserved) + "" == Escape(text, reserved);
  }

  /** The same with a trailing opening parenthesis kept as it is. */
  lemma EscapeEachKeptUndone(p: string, reserved: string)
    requires |reserved| > 0 && reserved[0] == '\\' && Distinct(reserved)
    ensures Unescape(EscapeEach(p, reserved) + "(", reserved) == p + "("
  {
    EscapeEachIsEscape(p, reserved);
    UnescapeEscape(p, "(", reserved);
    assert Unescape("(", reserved) == "(";
  }

  /** The escaping step puts one backslash before each reserved character and so can be undone. */
  lemma QuoteNameEscapes(text: string, keepParen: bool, reserved: string)
    requires |reserved| > 0 && reserved[0] == '\\' && Distinct(reserved)
    ensures var kept := keepParen && |text| > 0 && text[|text| - 1] == '(';
      QuoteName(text, keepParen, reserved) ==
        (if kept then Escape(text[..|text| - 1], reserved) + "(" else Escape(text, reserved))
    ensures Unescape(QuoteName(text, keepParen, reserved), reserved) == text
  {
    if keepParen && |text| > 0 && text[|text| - 1] == '(' {
      var p := text[..|text| - 1];
      EscapeEachIsEscape(p, reserved);
      EscapeEachKeptUndone(p, reserved);
      assert p + "(" == text;
    } else {
      EscapeEachUndone(text, reserved);
    }
  }

  /**
   * Names of variables and functions: a name of one character, or one made of
   * reserved characters only, is copied as it is; every other name has each
   * reserved character quoted by exactly one backslash (a trailing opening
   * parenthesis aside, when the cell keeps it), so that unescaping returns the
   * copy text.
   */
  lemma PlainNames(leaf: Leaf, cfg: Config)
    requires leaf.style == Variable || leaf.style == FunctionName
    ensures var copy := CopyText(leaf, cfg);
      (|leaf.text| <= 1 || AllReserved(leaf.text, Reserved) ==> PlainBody(leaf, cfg) == copy) &&
      (|leaf.text| > 1 && !AllReserved(leaf.text, Reserved) ==>
        PlainBody(leaf, cfg) == QuoteName(copy, leaf.dontEscapeOpeningParenthesis, Reserved) &&
        Unescape(PlainBody(leaf, cfg), Reserved) == copy)
  {
    ReservedDistinct();
    QuoteNameEscapes(CopyText(leaf, cfg), leaf.dontEscapeOpeningParenthesis, Reserved);
  }

  /** The Matlab export quotes names the same way, without the one-character exemption and without quoting '-'. */
  lemma MatlabNames(leaf: Leaf, cfg: Config)
    requires leaf.style == Variable || leaf.style == FunctionName
    ensures var copy := MatlabCopyText(leaf, cfg);
      (AllReserved(leaf.text, MatlabReserved) ==> MatlabBody(leaf, cfg) == copy) &&
      (!AllReserved(leaf.text, MatlabReserved) ==>
        Unescape(MatlabBody(leaf, cfg), MatlabReserved) == copy)
  {
    MatlabReservedDistinct();
    QuoteNameEscapes(MatlabCopyText(leaf, cfg), leaf.dontEscapeOpeningParenthesis, MatlabReserved);
  }

  /**
   * A cell that keeps its trailing opening parenthesis exports it after the
   * quoted rest of the name.
   */
  lemma PlainKeepsParenthesis(leaf: Leaf, cfg: Config)
    requires leaf.style == Variable || leaf.style == FunctionName
    requires |leaf.text| > 1 && !AllReserved(leaf.text, Reserved) && leaf.dontEscapeOpeningParenthesis
    requires var c := CopyText(leaf, cfg); |c| > 0 && c[|c| - 1] == '('
    ensures var c := CopyText(leaf, cfg);
      PlainBody(leaf, cfg) == Escape(c[..|c| - 1], Reserved) + "("
  {
    ReservedDistinct();
    QuoteNameEscapes(CopyText(leaf, cfg), true, Reserved);
  }

  /**
   * The suffixes: a string is put in double quotes; a label or prompt loses
   * its trailing white space and gets a tab; and the next cell decides only
   * whether a newline follows.
   */
  lemma PlainSuffixes(leaf: Leaf, cfg: Config, ctx: Context)
    ensures leaf.style == QuotedString ==> PlainBody(leaf, cfg) == "\"" + CopyText(leaf, cfg) + "\""
    ensures leaf.style in {Label, UserLabel, MainPrompt, OtherPrompt} ==>
      var b := PlainBody(leaf, cfg);
      |b| > 0 && b[|b| - 1] == '\t' && b[..|b| - 1] <= CopyText(leaf, cfg) &&
      (|b| == 1 || !IsSpace(b[|b| - 2]))
    ensures ToString(leaf, cfg, ctx) == ToString(leaf, cfg, Context(ctx.previous, None)) + (if NextBreaks(ctx) then "\n" else "")
  {
    if leaf.style in {Label, UserLabel, MainPrompt, OtherPrompt} {
      var r := TrimRight(CopyText(leaf, cfg));
      assert PlainBody(leaf, cfg) == r + "\t";
      assert (r + "\t")[..|r|] == r;
    }
  }

  /** The loop that decides whether a name is an operator name. */
  method ScanOperatorName(name: string, reserved: string) returns (isOperator: bool)
    ensures isOperator == AllReserved(name, reserved)
  {
    isOperator := true;
    var i := 0;
    while i < |name|
      invariant 0 <= i <= |name|
      invariant forall k :: 0 <= k < i ==> name[k] != ' ' && name[k] in reserved
    {
      if name[i] == ' ' || name[i] !in reserved {
        isOperator := false;
        break;
      }
      i := i + 1;
    }
  }

  /** The loop that quotes the reserved characters one after the other. */
  method QuoteReserved(text: string, reserved: string) returns (r: string)
    requires |reserved| > 0 && reserved[0] == '\\' && Distinct(reserved)
    ensures r == EscapeEach(text, reserved) && r == Escape(text, reserved)
  {
    r := text;
    assert reserved[0..] == reserved;
    for i := 0 to |reserved|
      invariant EscapeEach(r, reserved[i..]) == EscapeEach(text, reserved)
    {
      assert reserved[i..][0] == reserved[i] && reserved[i..][1..] == reserved[i + 1..];
      r := ReplaceAll(r, [reserved[i]], ['\\', reserved[i]]);
    }
    assert reserved[|reserved|..] == [];
    EscapeEachIsEscape(text, reserved);
  }

  // ---------------------------------------------------------------------
  // TeX

  /** The TeX export starts from the shown text; %e, %i and %pi are spelled out unless percent signs are kept. */
  function TeXSource(leaf: Leaf, cfg: Config): string
  {
    var t := ShownText(leaf, cfg, leaf.displayedText);
    if cfg.keepPercent then t
    else if t == "%e" then "e"
    else if t == "%i" then "i"
    else if t == "%pi" then "\U{03C0}"
    else t
  }

  /** Styles whose TeX is text, so that symbols must switch to math mode. */
  predicate TextModeStyle(style: TextStyle)
  {
    style in {Error, Warning, Label, UserLabel, MainPrompt, OtherPrompt}
  }

  function MathModeStart(style: TextStyle): string
  {
    if TextModeStyle(style) then "\\ensuremath{" else ""
  }

  function MathModeEnd(style: TextStyle): string
  {
    if TextModeStyle(style) then "}" else " "
  }

  /** Backslashes and braces, replaced in that order. */
  function TeXBraces(s: string, ms: string, me: string): string
  {
    ReplaceAll(ReplaceAll(ReplaceAll(s, "\\", ms + "\\backslash" + me), "{", "\\{"), "}", "\\}")
  }

  /** Umlauts, which math mode does not allow, wrapped in \text. */
  function TeXUmlauts(s: string): string
  {
    var t1 := ReplaceAll(s, "\U{00E4}", "\\text{\U{00E4}}");
    var t2 := ReplaceAll(t1, "\U{00F6}", "\\text{\U{00F6}}");
    var t3 := ReplaceAll(t2, "\U{00FC}", "\\text{\U{00FC}}");
    var t4 := ReplaceAll(t3, "\U{00C4}", "\\text{\U{00C4}}");
    var t5 := ReplaceAll(t4, "\U{00D6}", "\\text{\U{00D6}}");
    ReplaceAll(t5, "\U{00DC}", "\\text{\U{00DC}}")
  }

  lemma TeXUmlautsLeave(s: string)
    requires '\U{00E4}' !in s && '\U{00F6}' !in s && '\U{00FC}' !in s && '\U{00C4}' !in s && '\U{00D6}' !in s && '\U{00DC}' !in s
    ensures TeXUmlauts(s) == s
  {
    MissingCharUnchanged(s, '\U{00E4}', "\\text{\U{00E4}}");
    MissingCharUnchanged(s, '\U{00F6}', "\\text{\U{00F6}}");
    MissingCharUnchanged(s, '\U{00FC}', "\\text{\U{00FC}}");
    MissingCharUnchanged(s, '\U{00C4}', "\\text{\U{00C4}}");
    MissingCharUnchanged(s, '\U{00D6}', "\\text{\U{00D6}}");
    MissingCharUnchanged(s, '\U{00DC}', "\\text{\U{00DC}}");
  }

  /** The symbol substitutions of src/TextCell.cpp:1018-1029, in source order. */
  function SymbolPass1(s: string, ms: string, me: string): string
  {
    var t1 := ReplaceAll(s, "<", ms + "<" + me);
    var t2 := ReplaceAll(t1, ">", ms + ">" + me);
    var t3 := ReplaceAll(t2, "\U{2212}", "-");
    var t4 := ReplaceAll(t3, "\U{00B1}", ms + "\\pm" + me);
    var t5 := ReplaceAll(t4, "\U{03B1}", ms + "\\alpha" + me);
    var t6 := ReplaceAll(t5, "\U{00B2}", ms + "^2" + me);
    var t7 := ReplaceAll(t6, "\U{00B3}", ms + "^3" + me);
    var t8 := ReplaceAll(t7, "\U{221A}", ms + "\\sqrt{}" + me);
    var t9 := ReplaceAll(t8, "\U{2148}", ms + "\\mathbbm{i}" + me);
    var t10 := ReplaceAll(t9, "\U{2147}", ms + "\\mathbbm{e}" + me);
    var t11 := ReplaceAll(t10, "\U{210F}", ms + "\\hbar" + me);
    ReplaceAll(t11, "\U{2203}", ms + "\\exists" + me)
  }

  /** A text holding none of the characters it replaces passes SymbolPass1 unchanged. */
  lemma SymbolPass1Leaves(s: string, ms: string, me: string)
    requires '<' !in s && '>' !in s && '\U{2212}' !in s && '\U{00B1}' !in s && '\U{03B1}' !in s && '\U{00B2}' !in s && '\U{00B3}' !in s && '\U{221A}' !in s && '\U{2148}' !in s && '\U{2147}' !in s && '\U{210F}' !in s && '\U{2203}' !in s
    ensures SymbolPass1(s, ms, me) == s
  {
    MissingCharUnchanged(s, '<', ms + "<" + me);
    MissingCharUnchanged(s, '>', ms + ">" + me);
    MissingCharUnchanged(s, '\U{2212}', "-");
    MissingCharUnchanged(s, '\U{00B1}', ms + "\\pm" + me);
    MissingCharUnchanged(s, '\U{03B1}', ms + "\\alpha" + me);
    MissingCharUnchanged(s, '\U{00B2}', ms + "^2" + me);
    MissingCharUnchanged(s, '\U{00B3}', ms + "^3" + me);
    MissingCharUnchanged(s, '\U{221A}', ms + "\\sqrt{}" + me);
    MissingCharUnchanged(s, '\U{2148}', ms + "\\mathbbm{i}" + me);
    MissingCharUnchanged(s, '\U{2147}', ms + "\\mathbbm{e}" + me);
    MissingCharUnchanged(s, '\U{210F}', ms + "\\hbar" + me);
    MissingCharUnchanged(s, '\U{2203}', ms + "\\exists" + me);
  }

  /** The symbol substitutions of src/TextCell.cpp:1030-1041, in source order. */
  function SymbolPass2(s: string, nor: char, ms: string, me: string): string
  {
    var t1 := ReplaceAll(s, "\U{2204}", ms + "\\nexists" + me);
    var t2 := ReplaceAll(t1, "\U{2208}", ms + "\\in" + me);
    var t3 := ReplaceAll(t2, "\U{21D2}", ms + "\\Longrightarrow" + me);
    var t4 := ReplaceAll(t3, "\U{221E}", ms + "\\infty" + me);
    var t5 := ReplaceAll(t4, "\U{22C0}", ms + "\\wedge" + me);
    var t6 := ReplaceAll(t5, "\U{22C1}", ms + "\\vee" + me);
    var t7 := ReplaceAll(t6, "\U{22BB}", ms + "\\oplus" + me);
    var t8 := ReplaceAll(t7, "\U{22BC}", ms + "\\overline{\\wedge}" + me);
    var t9 := ReplaceAll(t8, [nor], ms + "\\overline{\\vee}" + me);
    var t10 := ReplaceAll(t9, "\U{00AC}", ms + "\\setminus" + me);
    var t11 := ReplaceAll(t10, "\U{22C3}", ms + "\\cup" + me);
    ReplaceAll(t11, "\U{22C2}", ms + "\\cap" + me)
  }

  /** A text holding none of the characters it replaces passes SymbolPass2 unchanged. */
  lemma SymbolPass2Leaves(s: string, nor: char, ms: string, me: string)
    requires '\U{2204}' !in s && '\U{2208}' !in s && '\U{21D2}' !in s && '\U{221E}' !in s && '\U{22C0}' !in s && '\U{22C1}' !in s && '\U{22BB}' !in s && '\U{22BC}' !in s && nor !in s && '\U{00AC}' !in s && '\U{22C3}' !in s && '\U{22C2}' !in s
    ensures SymbolPass2(s, nor, ms, me) == s
  {
    MissingCharUnchanged(s, '\U{2204}', ms + "\\nexists" + me);
    MissingCharUnchanged(s, '\U{2208}', ms + "\\in" + me);
    MissingCharUnchanged(s, '\U{21D2}', ms + "\\Longrightarrow" + me);
    MissingCharUnchanged(s, '\U{221E}', ms + "\\infty" + me);
    MissingCharUnchanged(s, '\U{22C0}', ms + "\\wedge" + me);
    MissingCharUnchanged(s, '\U{22C1}', ms + "\\vee" + me);
    MissingCharUnchanged(s, '\U{22BB}', ms + "\\oplus" + me);
    MissingCharUnchanged(s, '\U{22BC}', ms + "\\overline{\\wedge}" + me);
    MissingCharUnchanged(s, nor, ms + "\\overline{\\vee}" + me);
    MissingCharUnchanged(s, '\U{00AC}', ms + "\\setminus" + me);
    MissingCharUnchanged(s, '\U{22C3}', ms + "\\cup" + me);
    MissingCharUnchanged(s, '\U{22C2}', ms + "\\cap" + me);
  }

  /** The symbol substitutions of src/TextCell.cpp:1042-1053, in source order. */
  function SymbolPass3(s: string, ms: string, me: string): string
  {
    var t1 := ReplaceAll(s, "\U{2286}", ms + "\\subseteq" + me);
    var t2 := ReplaceAll(t1, "\U{2282}", ms + "\\subset" + me);
    var t3 := ReplaceAll(t2, "\U{2288}", ms + "\\not\\subseteq" + me);
    var t4 := ReplaceAll(t3, "\U{0127}", ms + "\\hbar" + me);
    var t5 := ReplaceAll(t4, "\U{0126}", ms + "\\Hbar" + me);
    var t6 := ReplaceAll(t5, "\U{2205}", ms + "\\emptyset" + me);
    var t7 := ReplaceAll(t6, "\U{00BD}", ms + "\\frac{1}{2}" + me);
    var t8 := ReplaceAll(t7, "\U{03B2}", ms + "\\beta" + me);
    var t9 := ReplaceAll(t8, "\U{03B3}", ms + "\\gamma" + me);
    var t10 := ReplaceAll(t9, "\U{03B4}", ms + "\\delta" + me);
    var t11 := ReplaceAll(t10, "\U{03B5}", ms + "\\epsilon" + me);
    ReplaceAll(t11, "\U{03B6}", ms + "\\zeta" + me)
  }

  /** A text holding none of the characters it replaces passes SymbolPass3 unchanged. */
  lemma SymbolPass3Leaves(s: string, ms: string, me: string)
    requires '\U{2286}' !in s && '\U{2282}' !in s && '\U{2288}' !in s && '\U{0127}' !in s && '\U{0126}' !in s && '\U{2205}' !in s && '\U{00BD}' !in s && '\U{03B2}' !in s && '\U{03B3}' !in s && '\U{03B4}' !in s && '\U{03B5}' !in s && '\U{03B6}' !in s
    ensures SymbolPass3(s, ms, me) == s
  {
    MissingCharUnchanged(s, '\U{2286}', ms + "\\subseteq" + me);
    MissingCharUnchanged(s, '\U{2282}', ms + "\\subset" + me);
    MissingCharUnchanged(s, '\U{2288}', ms + "\\not\\subseteq" + me);
    MissingCharUnchanged(s, '\U{0127}', ms + "\\hbar" + me);
    MissingCharUnchanged(s, '\U{0126}', ms + "\\Hbar" + me);
    MissingCharUnchanged(s, '\U{2205}', ms + "\\emptyset" + me);
    MissingCharUnchanged(s, '\U{00BD}', ms + "\\frac{1}{2}" + me);
    MissingCharUnchanged(s, '\U{03B2}', ms + "\\beta" + me);
    MissingCharUnchanged(s, '\U{03B3}', ms + "\\gamma" + me);
    MissingCharUnchanged(s, '\U{03B4}', ms + "\\delta" + me);
    MissingCharUnchanged(s, '\U{03B5}', ms + "\\epsilon" + me);
    MissingCharUnchanged(s, '\U{03B6}', ms + "\\zeta" + me);
  }

  /** The symbol substitutions of src/TextCell.cpp:1054-1065, in source order. */
  function SymbolPass4(s: string, ms: string, me: string): string
  {
    var t1 := ReplaceAll(s, "\U{03B7}", ms + "\\eta" + me);
    var t2 := ReplaceAll(t1, "\U{03B8}", ms + "\\theta" + me);
    var t3 := ReplaceAll(t2, "\U{03B9}", ms + "\\iota" + me);
    var t4 := ReplaceAll(t3, "\U{03BA}", ms + "\\kappa" + me);
    var t5 := ReplaceAll(t4, "\U{03BB}", ms + "\\lambda" + me);
    var t6 := ReplaceAll(t5, "\U{03BC}", ms + "\\mu" + me);
    var t7 := ReplaceAll(t6, "\U{03BD}", ms + "\\nu" + me);
    var t8 := ReplaceAll(t7, "\U{03BE}", ms + "\\xi" + me);
    var t9 := ReplaceAll(t8, "\U{03BF}", "o");
    var t10 := ReplaceAll(t9, "\U{03C0}", ms + "\\pi" + me);
    var t11 := ReplaceAll(t10, "\U{03C1}", ms + "\\rho" + me);
    ReplaceAll(t11, "\U{03C3}", ms + "\\sigma" + me)
  }

  /** A text holding none of the characters it replaces passes SymbolPass4 unchanged. */
  lemma SymbolPass4Leaves(s: string, ms: string, me: string)
    requires '\U{03B7}' !in s && '\U{03B8}' !in s && '\U{03B9}' !in s && '\U{03BA}' !in s && '\U{03BB}' !in s && '\U{03BC}' !in s && '\U{03BD}' !in s && '\U{03BE}' !in s && '\U{03BF}' !in s && '\U{03C0}' !in s && '\U{03C1}' !in s && '\U{03C3}' !in s
    ensures SymbolPass4(s, ms, me) == s
  {
    MissingCharUnchanged(s, '\U{03B7}', ms + "\\eta" + me);
    MissingCharUnchanged(s, '\U{03B8}', ms + "\\theta" + me);
    MissingCharUnchanged(s, '\U{03B9}', ms + "\\iota" + me);
    MissingCharUnchanged(s, '\U{03BA}', ms + "\\kappa" + me);
    MissingCharUnchanged(s, '\U{03BB}', ms + "\\lambda" + me);
    MissingCharUnchanged(s, '\U{03BC}', ms + "\\mu" + me);
    MissingCharUnchanged(s, '\U{03BD}', ms + "\\nu" + me);
    MissingCharUnchanged(s, '\U{03BE}', ms + "\\xi" + me);
    MissingCharUnchanged(s, '\U{03BF}', "o");
    MissingCharUnchanged(s, '\U{03C0}', ms + "\\pi" + me);
    MissingCharUnchanged(s, '\U{03C1}', ms + "\\rho" + me);
    MissingCharUnchanged(s, '\U{03C3}', ms + "\\sigma" + me);
  }

  /** The symbol substitutions of src/TextCell.cpp:1066-1077, in source order. */
  function SymbolPass5(s: string, ms: string, me: string): string
  {
    var t1 := ReplaceAll(s, "\U{03C4}", ms + "\\tau" + me);
    var t2 := ReplaceAll(t1, "\U{03C5}", ms + "\\upsilon" + me);
    var t3 := ReplaceAll(t2, "\U{03C6}", ms + "\\phi" + me);
    var t4 := ReplaceAll(t3, "\U{03C7}", ms + "\\chi" + me);
    var t5 := ReplaceAll(t4, "\U{03C8}", ms + "\\psi" + me);
    var t6 := ReplaceAll(t5, "\U{03C9}", ms + "\\omega" + me);
    var t7 := ReplaceAll(t6, "\U{0391}", "A");
    var t8 := ReplaceAll(t7, "\U{0392}", "B");
    var t9 := ReplaceAll(t8, "\U{0393}", ms + "\\Gamma" + me);
    var t10 := ReplaceAll(t9, "\U{0394}", ms + "\\Delta" + me);
    var t11 := ReplaceAll(t10, "\U{0395}", "E");
    ReplaceAll(t11, "\U{0396}", "Z")
  }

  /** A text holding none of the characters it replaces passes SymbolPass5 unchanged. */
  lemma SymbolPass5Leaves(s: string, ms: string, me: string)
    requires '\U{03C4}' !in s && '\U{03C5}' !in s && '\U{03C6}' !in s && '\U{03C7}' !in s && '\U{03C8}' !in s && '\U{03C9}' !in s && '\U{0391}' !in s && '\U{0392}' !in s && '\U{0393}' !in s && '\U{0394}' !in s && '\U{0395}' !in s && '\U{0396}' !in s
    ensures SymbolPass5(s, ms, me) == s
  {
    MissingCharUnchanged(s, '\U{03C4}', ms + "\\tau" + me);
    MissingCharUnchanged(s, '\U{03C5}', ms + "\\upsilon" + me);
    MissingCharUnchanged(s, '\U{03C6}', ms + "\\phi" + me);
    MissingCharUnchanged(s, '\U{03C7}', ms + "\\chi" + me);
    MissingCharUnchanged(s, '\U{03C8}', ms + "\\psi" + me);
    MissingCharUnchanged(s, '\U{03C9}', ms + "\\omega" + me);
    MissingCharUnchanged(s, '\U{0391}', "A");
    MissingCharUnchanged(s, '\U{0392}', "B");
    MissingCharUnchanged(s, '\U{0393}', ms + "\\Gamma" + me);
    MissingCharUnchanged(s, '\U{0394}', ms + "\\Delta" + me);
    MissingCharUnchanged(s, '\U{0395}', "E");
    MissingCharUnchanged(s, '\U{0396}', "Z");
  }

  /** The symbol substitutions of src/TextCell.cpp:1078-1089, in source order. */
  function SymbolPass6(s: string, ms: string, me: string): string
  {
    var t1 := ReplaceAll(s, "\U{0397}", "H");
    var t2 := ReplaceAll(t1, "\U{0398}", ms + "\\Theta" + me);
    var t3 := ReplaceAll(t2, "\U{0399}", "I");
    var t4 := ReplaceAll(t3, "\U{039A}", "K");
    var t5 := ReplaceAll(t4, "\U{039B}", ms + "\\Lambda" + me);
    var t6 := ReplaceAll(t5, "\U{039C}", "M");
    var t7 := ReplaceAll(t6, "\U{039D}", "N");
    var t8 := ReplaceAll(t7, "\U{039E}", ms + "\\Xi" + me);
    var t9 := ReplaceAll(t8, "\U{039F}", "O");
    var t10 := ReplaceAll(t9, "\U{03A0}", ms + "\\Pi" + me);
    var t11 := ReplaceAll(t10, "\U{03A1}", "P");
    ReplaceAll(t11, "\U{03A3}", ms + "\\Sigma" + me)
  }

  /** A text holding none of the characters it replaces passes SymbolPass6 unchanged. */
  lemma SymbolPass6Leaves(s: string, ms: string, me: string)
    requires '\U{0397}' !in s && '\U{0398}' !in s && '\U{0399}' !in s && '\U{039A}' !in s && '\U{039B}' !in s && '\U{039C}' !in s && '\U{039D}' !in s && '\U{039E}' !in s && '\U{039F}' !in s && '\U{03A0}' !in s && '\U{03A1}' !in s && '\U{03A3}' !in s
    ensures SymbolPass6(s, ms, me) == s
  {
    MissingCharUnchanged(s, '\U{0397}', "H");
    MissingCharUnchanged(s, '\U{0398}', ms + "\\Theta" + me);
    MissingCharUnchanged(s, '\U{0399}', "I");
    MissingCharUnchanged(s, '\U{039A}', "K");
    MissingCharUnchanged(s, '\U{039B}', ms + "\\Lambda" + me);
    MissingCharUnchanged(s, '\U{039C}', "M");
    MissingCharUnchanged(s, '\U{039D}', "N");
    MissingCharUnchanged(s, '\U{039E}', ms + "\\Xi" + me);
    MissingCharUnchanged(s, '\U{039F}', "O");
    MissingCharUnchanged(s, '\U{03A0}', ms + "\\Pi" + me);
    MissingCharUnchanged(s, '\U{03A1}', "P");
    MissingCharUnchanged(s, '\U{03A3}', ms + "\\Sigma" + me);
  }

  /** The symbol substitutions of src/TextCell.cpp:1090-1101, in source order. */
  function SymbolPass7(s: string, ms: string, me: string): string
  {
    var t1 := ReplaceAll(s, "\U{03A4}", "T");
    var t2 := ReplaceAll(t1, "\U{03A5}", ms + "\\Upsilon" + me);
    var t3 := ReplaceAll(t2, "\U{03A6}", ms + "\\Phi" + me);
    var t4 := ReplaceAll(t3, "\U{03A7}", "X");
    var t5 := ReplaceAll(t4, "\U{03A8}", ms + "\\Psi" + me);
    var t6 := ReplaceAll(t5, "\U{03A9}", ms + "\\Omega" + me);
    var t7 := ReplaceAll(t6, "\U{2202}", ms + "\\partial" + me);
    var t8 := ReplaceAll(t7, "\U{222B}", ms + "\\int" + me);
    var t9 := ReplaceAll(t8, "\U{2245}", ms + "\\approx" + me);
    var t10 := ReplaceAll(t9, "\U{221D}", ms + "\\propto" + me);
    var t11 := ReplaceAll(t10, "\U{2260}", ms + "\\neq" + me);
    ReplaceAll(t11, "\U{2264}", ms + "\\leq" + me)
  }

  /** A text holding none of the characters it replaces passes SymbolPass7 unchanged. */
  lemma SymbolPass7Leaves(s: string, ms: string, me: string)
    requires '\U{03A4}' !in s && '\U{03A5}' !in s && '\U{03A6}' !in s && '\U{03A7}' !in s && '\U{03A8}' !in s && '\U{03A9}' !in s && '\U{2202}' !in s && '\U{222B}' !in s && '\U{2245}' !in s && '\U{221D}' !in s && '\U{2260}' !in s && '\U{2264}' !in s
    ensures SymbolPass7(s, ms, me) == s
  {
    MissingCharUnchanged(s, '\U{03A4}', "T");
    MissingCharUnchanged(s, '\U{03A5}', ms + "\\Upsilon" + me);
    MissingCharUnchanged(s, '\U{03A6}', ms + "\\Phi" + me);
    MissingCharUnchanged(s, '\U{03A7}', "X");
    MissingCharUnchanged(s, '\U{03A8}', ms + "\\Psi" + me);
    MissingCharUnchanged(s, '\U{03A9}', ms + "\\Omega" + me);
    MissingCharUnchanged(s, '\U{2202}', ms + "\\partial" + me);
    MissingCharUnchanged(s, '\U{222B}', ms + "\\int" + me);
    MissingCharUnchanged(s, '\U{2245}', ms + "\\approx" + me);
    MissingCharUnchanged(s, '\U{221D}', ms + "\\propto" + me);
    MissingCharUnchanged(s, '\U{2260}', ms + "\\neq" + me);
    MissingCharUnchanged(s, '\U{2264}', ms + "\\leq" + me);
  }

  /** The symbol substitutions of src/TextCell.cpp:1102-1113, in source order. */
  function SymbolPass8(s: string, ms: string, me: string): string
  {
    var t1 := ReplaceAll(s, "\U{2265}", ms + "\\geq" + me);
    var t2 := ReplaceAll(t1, "\U{226A}", ms + "\\ll" + me);
    var t3 := ReplaceAll(t2, "\U{226B}", ms + "\\gg" + me);
    var t4 := ReplaceAll(t3, "\U{220E}", ms + "\\blacksquare" + me);
    var t5 := ReplaceAll(t4, "\U{2263}", ms + "\\equiv" + me);
    var t6 := ReplaceAll(t5, "\U{2211}", ms + "\\sum" + me);
    var t7 := ReplaceAll(t6, "\U{220F}", ms + "\\prod" + me);
    var t8 := ReplaceAll(t7, "\U{2225}", ms + "\\parallel" + me);
    var t9 := ReplaceAll(t8, "\U{27C2}", ms + "\\bot" + me);
    var t10 := ReplaceAll(t9, "~", ms + "\\sim " + me);
    var t11 := ReplaceAll(t10, "_", "\\_ ");
    ReplaceAll(t11, "$", "\\$ ")
  }

  /** A text holding none of the characters it replaces passes SymbolPass8 unchanged. */
  lemma SymbolPass8Leaves(s: string, ms: string, me: string)
    requires '\U{2265}' !in s && '\U{226A}' !in s && '\U{226B}' !in s && '\U{220E}' !in s && '\U{2263}' !in s && '\U{2211}' !in s && '\U{220F}' !in s && '\U{2225}' !in s && '\U{27C2}' !in s && '~' !in s && '_' !in s && '$' !in s
    ensures SymbolPass8(s, ms, me) == s
  {
    MissingCharUnchanged(s, '\U{2265}', ms + "\\geq" + me);
    MissingCharUnchanged(s, '\U{226A}', ms + "\\ll" + me);
    MissingCharUnchanged(s, '\U{226B}', ms + "\\gg" + me);
    MissingCharUnchanged(s, '\U{220E}', ms + "\\blacksquare" + me);
    MissingCharUnchanged(s, '\U{2263}', ms + "\\equiv" + me);
    MissingCharUnchanged(s, '\U{2211}', ms + "\\sum" + me);
    MissingCharUnchanged(s, '\U{220F}', ms + "\\prod" + me);
    MissingCharUnchanged(s, '\U{2225}', ms + "\\parallel" + me);
    MissingCharUnchanged(s, '\U{27C2}', ms + "\\bot" + me);
    MissingCharUnchanged(s, '~', ms + "\\sim " + me);
    MissingCharUnchanged(s, '_', "\\_ ");
    MissingCharUnchanged(s, '$', "\\$ ");
  }

  /** The symbol substitutions of src/TextCell.cpp:1114-1123, in source order. */
  function SymbolPass9(s: string, ms: string, me: string): string
  {
    var t1 := ReplaceAll(s, "%", "\\% ");
    var t2 := ReplaceAll(t1, "&", "\\& ");
    var t3 := ReplaceAll(t2, "@", ms + "@" + me);
    var t4 := ReplaceAll(t3, "#", ms + "\\neq" + me);
    var t5 := ReplaceAll(t4, "\U{00A0}", "~");
    var t6 := ReplaceAll(t5, "<", ms + "<" + me);
    var t7 := ReplaceAll(t6, ">", ms + ">" + me);
    var t8 := ReplaceAll(t7, "\U{219D}", ms + "\\leadsto" + me);
    var t9 := ReplaceAll(t8, "\U{2192}", ms + "\\rightarrow" + me);
    ReplaceAll(t9, "\U{2794}", ms + "\\longrightarrow" + me)
  }

  /** A text holding none of the characters it replaces passes SymbolPass9 unchanged. */
  lemma SymbolPass9Leaves(s: string, ms: string, me: string)
    requires '%' !in s && '&' !in s && '@' !in s && '#' !in s && '\U{00A0}' !in s && '<' !in s && '>' !in s && '\U{219D}' !in s && '\U{2192}' !in s && '\U{2794}' !in s
    ensures SymbolPass9(s, ms, me) == s
  {
    MissingCharUnchanged(s, '%', "\\% ");
    MissingCharUnchanged(s, '&', "\\& ");
    MissingCharUnchanged(s, '@', ms + "@" + me);
    MissingCharUnchanged(s, '#', ms + "\\neq" + me);
    MissingCharUnchanged(s, '\U{00A0}', "~");
    MissingCharUnchanged(s, '<', ms + "<" + me);
    MissingCharUnchanged(s, '>', ms + ">" + me);
    MissingCharUnchanged(s, '\U{219D}', ms + "\\leadsto" + me);
    MissingCharUnchanged(s, '\U{2192}', ms + "\\rightarrow" + me);
    MissingCharUnchanged(s, '\U{2794}', ms + "\\longrightarrow" + me);
  }

  /**
   * The substitutions of ToTeX up to the multiplication signs.  `nor` is the
   * character the second rule for the NOR sign replaces.
   */
  function TeXSymbolsWith(t: string, style: TextStyle, nor: char): string
  {
    var ms := MathModeStart(style);
    var me := MathModeEnd(style);
    var braced := TeXBraces(t, ms, me);
    var umlauts := if TextModeStyle(style) then braced else TeXUmlauts(braced);
    var p1 := SymbolPass1(umlauts, ms, me);
    var p2 := SymbolPass2(p1, nor, ms, me);
    var p3 := SymbolPass3(p2, ms, me);
    var p4 := SymbolPass4(p3, ms, me);
    var p5 := SymbolPass5(p4, ms, me);
    var p6 := SymbolPass6(p5, ms, me);
    var p7 := SymbolPass7(p6, ms, me);
    var p8 := SymbolPass8(p7, ms, me);
    SymbolPass9(p8, ms, me)
  }

  /** The substitutions as the source writes them: both rules name U+22BB. */
  function TeXSymbolsAsWritten(t: string, style: TextStyle): string
  {
    TeXSymbolsWith(t, style, '\U{22BB}')
  }

  /** The substitutions with the second rule naming the NOR sign U+22BD. */
  function TeXSymbols(t: string, style: TextStyle): string
  {
    TeXSymbolsWith(t, style, '\U{22BD}')
  }

  /** The text holds no character that the brace, umlaut and first symbol substitutions replace. */
  predicate NoEarlyTeXSymbols(s: string)
  {
    '\\' !in s && '{' !in s && '}' !in s &&
    '\U{00E4}' !in s && '\U{00F6}' !in s && '\U{00FC}' !in s && '\U{00C4}' !in s && '\U{00D6}' !in s && '\U{00DC}' !in s &&
    '<' !in s && '>' !in s && '\U{2212}' !in s && '\U{00B1}' !in s && '\U{03B1}' !in s && '\U{00B2}' !in s && '\U{00B3}' !in s && '\U{221A}' !in s && '\U{2148}' !in s && '\U{2147}' !in s && '\U{210F}' !in s && '\U{2203}' !in s
  }

  /** The text holds no character that the second symbol substitutions replace. */
  predicate NoPass2Symbols(s: string, nor: char)
  {
    '\U{2204}' !in s && '\U{2208}' !in s && '\U{21D2}' !in s && '\U{221E}' !in s && '\U{22C0}' !in s && '\U{22C1}' !in s && '\U{22BB}' !in s && '\U{22BC}' !in s && nor !in s && '\U{00AC}' !in s && '\U{22C3}' !in s && '\U{22C2}' !in s
  }

  /** A character that none of the later symbol substitutions replaces. */
  predicate LateSafe(c: char)
  {
    c != '\U{2286}' &&
    c != '\U{2282}' &&
    c != '\U{2288}' &&
    c != '\U{0127}' &&
    c != '\U{0126}' &&
    c != '\U{2205}' &&
    c != '\U{00BD}' &&
    c != '\U{03B2}' &&
    c != '\U{03B3}' &&
    c != '\U{03B4}' &&
    c != '\U{03B5}' &&
    c != '\U{03B6}' &&
    c != '\U{03B7}' &&
    c != '\U{03B8}' &&
    c != '\U{03B9}' &&
    c != '\U{03BA}' &&
    c != '\U{03BB}' &&
    c != '\U{03BC}' &&
    c != '\U{03BD}' &&
    c != '\U{03BE}' &&
    c != '\U{03BF}' &&
    c != '\U{03C0}' &&
    c != '\U{03C1}' &&
    c != '\U{03C3}' &&
    c != '\U{03C4}' &&
    c != '\U{03C5}' &&
    c != '\U{03C6}' &&
    c != '\U{03C7}' &&
    c != '\U{03C8}' &&
    c != '\U{03C9}' &&
    c != '\U{0391}' &&
    c != '\U{0392}' &&
    c != '\U{0393}' &&
    c != '\U{0394}' &&
    c != '\U{0395}' &&
    c != '\U{0396}' &&
    c != '\U{0397}' &&
    c != '\U{0398}' &&
    c != '\U{0399}' &&
    c != '\U{039A}' &&
    c != '\U{039B}' &&
    c != '\U{039C}' &&
    c != '\U{039D}' &&
    c != '\U{039E}' &&
    c != '\U{039F}' &&
    c != '\U{03A0}' &&
    c != '\U{03A1}' &&
    c != '\U{03A3}' &&
    c != '\U{03A4}' &&
    c != '\U{03A5}' &&
    c != '\U{03A6}' &&
    c != '\U{03A7}' &&
    c != '\U{03A8}' &&
    c != '\U{03A9}' &&
    c != '\U{2202}' &&
    c != '\U{222B}' &&
    c != '\U{2245}' &&
    c != '\U{221D}' &&
    c != '\U{2260}' &&
    c != '\U{2264}' &&
    c != '\U{2265}' &&
    c != '\U{226A}' &&
    c != '\U{226B}' &&
    c != '\U{220E}' &&
    c != '\U{2263}' &&
    c != '\U{2211}' &&
    c != '\U{220F}' &&
    c != '\U{2225}' &&
    c != '\U{27C2}' &&
    c != '~' &&
    c != '_' &&
    c != '$' &&
    c != '%' &&
    c != '&' &&
    c != '@' &&
    c != '#' &&
    c != '\U{00A0}' &&
    c != '<' &&
    c != '>' &&
    c != '\U{219D}' &&
    c != '\U{2192}' &&
    c != '\U{2794}'
  }

  /** The text holds no character that the later symbol substitutions replace. */
  predicate NoLateTeXSymbols(s: string)
  {
    forall i :: 0 <= i < |s| ==> LateSafe(s[i])
  }

  /** The text holds no character that the substitutions up to the multiplication signs replace. */
  predicate NoTeXSymbols(s: string, nor: char)
  {
    NoEarlyTeXSymbols(s) && NoPass2Symbols(s, nor) && NoLateTeXSymbols(s)
  }

  /** A text without such characters passes the substitutions unchanged, in every style. */
  lemma TeXSymbolsLeave(s: string, style: TextStyle, nor: char)
    requires NoTeXSymbols(s, nor)
    ensures TeXSymbolsWith(s, style, nor) == s
  {
    var ms := MathModeStart(style);
    var me := MathModeEnd(style);
    MissingCharUnchanged(s, '\\', ms + "\\backslash" + me);
    MissingCharUnchanged(s, '{', "\\{");
    MissingCharUnchanged(s, '}', "\\}");
    assert TeXBraces(s, ms, me) == s;
    TeXUmlautsLeave(s);
    SymbolPass1Leaves(s, ms, me);
    SymbolPass2Leaves(s, nor, ms, me);
    MiddlePassesLeave(s, ms, me);
    LastPassesLeave(s, ms, me);
  }

  /** Passes 3 to 6 leave a text without the later symbols unchanged. */
  lemma MiddlePassesLeave(s: string, ms: string, me: string)
    requires NoLateTeXSymbols(s)
    ensures SymbolPass6(SymbolPass5(SymbolPass4(SymbolPass3(s, ms, me), ms, me), ms, me), ms, me) == s
  {
    SymbolPass3Leaves(s, ms, me);
    SymbolPass4Leaves(s, ms, me);
    SymbolPass5Leaves(s, ms, me);
    SymbolPass6Leaves(s, ms, me);
  }

  /** Passes 7 to 9 leave a text without the later symbols unchanged. */
  lemma LastPassesLeave(s: string, ms: string, me: string)
    requires NoLateTeXSymbols(s)
    ensures SymbolPass9(SymbolPass8(SymbolPass7(s, ms, me), ms, me), ms, me) == s
  {
    SymbolPass7Leaves(s, ms, me);
    SymbolPass8Leaves(s, ms, me);
    SymbolPass9Leaves(s, ms, me);
  }

  /** The multiplication signs pass all substitutions unchanged. */
  lemma TeXSymbolsKeepProducts(s: string, style: TextStyle, nor: char)
    requires s == "*" || s == [MiddleDot]
    requires nor != '*' && nor != MiddleDot
    ensures TeXSymbolsWith(s, style, nor) == s
  {
    if s == "*" {
      TeXSymbolsLeave("*", style, nor);
    } else {
      TeXSymbolsLeave([MiddleDot], style, nor);
    }
  }

  /**
   * With both rules naming U+22BB, the second is dead: a NOR sign in a
   * formula reaches TeX unchanged.
   */
  lemma NorSignAsWritten(s: string)
    requires s == [NorSign]
    ensures TeXSymbolsAsWritten(s, DefaultStyle) == s
  {
    TeXSymbolsLeave(s, DefaultStyle, '\U{22BB}');
  }

  /**
   * A default-style text that only the second symbol substitutions change
   * comes out of ToTeX's substitutions as that pass leaves it.
   */
  lemma TeXSymbolsOnlyPass2(s: string, v: string, nor: char)
    requires NoEarlyTeXSymbols(s) && SymbolPass2(s, nor, "", " ") == v && NoLateTeXSymbols(v)
    ensures TeXSymbolsWith(s, DefaultStyle, nor) == v
  {
    MissingCharUnchanged(s, '\\', "" + "\\backslash" + " ");
    MissingCharUnchanged(s, '{', "\\{");
    MissingCharUnchanged(s, '}', "\\}");
    assert TeXBraces(s, "", " ") == s;
    TeXUmlautsLeave(s);
    SymbolPass1Leaves(s, "", " ");
    SymbolPass3Leaves(v, "", " ");
    SymbolPass4Leaves(v, "", " ");
    SymbolPass5Leaves(v, "", " ");
    SymbolPass6Leaves(v, "", " ");
    SymbolPass7Leaves(v, "", " ");
    SymbolPass8Leaves(v, "", " ");
    SymbolPass9Leaves(v, "", " ");
  }

  /** The NOR sign. */
  const NorSign: char := '\U{22BD}'

  /** The second symbol pass turns a lone `nor` into a barred \vee when no earlier rule of the pass claims it. */
  lemma SymbolPass2OnNor(s: string, nor: char, ms: string, me: string)
    requires s == [nor]
    requires nor !in "\U{2204}\U{2208}\U{21D2}\U{221E}\U{22C0}\U{22C1}\U{22BB}\U{22BC}"
    requires var r := ms + "\\overline{\\vee}" + me; '\U{00AC}' !in r && '\U{22C3}' !in r && '\U{22C2}' !in r
    ensures SymbolPass2(s, nor, ms, me) == ms + "\\overline{\\vee}" + me
  {
    var r := ms + "\\overline{\\vee}" + me;
    MissingCharUnchanged(s, '\U{2204}', ms + "\\nexists" + me);
    MissingCharUnchanged(s, '\U{2208}', ms + "\\in" + me);
    MissingCharUnchanged(s, '\U{21D2}', ms + "\\Longrightarrow" + me);
    MissingCharUnchanged(s, '\U{221E}', ms + "\\infty" + me);
    MissingCharUnchanged(s, '\U{22C0}', ms + "\\wedge" + me);
    MissingCharUnchanged(s, '\U{22C1}', ms + "\\vee" + me);
    MissingCharUnchanged(s, '\U{22BB}', ms + "\\oplus" + me);
    MissingCharUnchanged(s, '\U{22BC}', ms + "\\overline{\\wedge}" + me);
    assert s[..1] == [nor] && s[1..] == [];
    assert ReplaceAll(s, [nor], r) == r + [] == r;
    MissingCharUnchanged(r, '\U{00AC}', ms + "\\setminus" + me);
    MissingCharUnchanged(r, '\U{22C3}', ms + "\\cup" + me);
    MissingCharUnchanged(r, '\U{22C2}', ms + "\\cap" + me);
  }

  /** With the second rule naming U+22BD, the NOR sign becomes a barred \vee. */
  lemma NorSignCorrected(s: string)
    requires s == [NorSign]
    ensures TeXSymbols(s, DefaultStyle) == "\\overline{\\vee} "
  {
    var v := "\\overline{\\vee} ";
    NorSignEarlySafe(s);
    SymbolPass2OnNor(s, NorSign, "", " ");
    VeeLateSafe(v);
    TeXSymbolsOnlyPass2(s, v, NorSign);
  }

  lemma NorSignEarlySafe(s: string)
    requires s == [NorSign]
    ensures NoEarlyTeXSymbols(s)
  {
  }

  lemma VeeLateSafe(v: string)
    requires v == "\\overline{\\vee} "
    ensures NoLateTeXSymbols(v)
  {
  }

  /**
   * A hidden multiplication sign between two variables gets a thin space when
   * the variable before has no subscript and either variable has a name of
   * more than one character (those are set in \mathit, which loses the
   * spacing of a product).
   */
  predicate SpacedProduct(ctx: Context)
  {
    ctx.previous.Some? && ctx.next.Some? &&
    ctx.previous.value.style == Variable && ctx.next.value.style == Variable &&
    '_' !in ctx.previous.value.plain &&
    (|ctx.previous.value.plain| > 1 || |ctx.next.value.plain| > 1)
  }

  /** The same condition as the source writes it: the length test looks at the next cell twice. */
  predicate SpacedProductAsWritten(ctx: Context)
  {
    ctx.previous.Some? && ctx.next.Some? &&
    ctx.previous.value.style == Variable && ctx.next.value.style == Variable &&
    '_' !in ctx.previous.value.plain &&
    (|ctx.next.value.plain| > 1 || |ctx.next.value.plain| > 1)
  }

  /** Two variables with no subscript: the thin space depends on both names' lengths. */
  lemma SpacedProductEitherName(ctx: Context)
    requires ctx.previous.Some? && ctx.next.Some?
    requires ctx.previous.value.style == Variable && ctx.next.value.style == Variable
    requires '_' !in ctx.previous.value.plain
    ensures SpacedProduct(ctx) <==> |ctx.previous.value.plain| > 1 || |ctx.next.value.plain| > 1
    ensures SpacedProductAsWritten(ctx) <==> |ctx.next.value.plain| > 1
  {
  }

  /** "ab" times "c": the source gives no thin space although "ab" is set in \mathit. */
  lemma SpacedProductCounterexample()
    ensures var ctx := Context(Some(Neighbour(Variable, false, false, "ab", "\\mathit{ab}")),
                               Some(Neighbour(Variable, false, false, "c", "c")));
      !SpacedProductAsWritten(ctx) && SpacedProduct(ctx)
  {
  }

  /** A hidden cell's TeX: a space for a multiplication sign, nothing for anything else. */
  function HiddenProductTeX(t: string, ctx: Context): string
  {
    if t == "*" || t == [MiddleDot] then (if SpacedProduct(ctx) then "\\, " else " ") else ""
  }

  /** A shown cell's multiplication signs: a thin space after a "d" or when dots are suppressed, else \cdot. */
  function VisibleProductTeX(t: string, leaf: Leaf, ctx: Context): string
  {
    if leaf.suppressMultiplicationDot then ReplaceAll(ReplaceAll(t, "*", "\\, "), [MiddleDot], "\\, ")
    else if ctx.previous.Some? then
      if ctx.previous.value.style == SpecialConstant && ctx.previous.value.tex == "d" then
        ReplaceAll(ReplaceAll(t, "*", "\\, "), [MiddleDot], "\\, ")
      else ReplaceAll(ReplaceAll(t, "*", "\\cdot "), [MiddleDot], "\\cdot ")
    else t
  }

  function ProductTeX(leaf: Leaf, cfg: Config, ctx: Context): string
  {
    var t := TeXSymbols(TeXSource(leaf, cfg), leaf.style);
    if Hidden(leaf, cfg) then HiddenProductTeX(t, ctx) else VisibleProductTeX(t, leaf, ctx)
  }

  function SpecialConstantTeX(t: string): string
  {
    if t == "inf" then "\\infty "
    else if t == "%e" then "e"
    else if t == "%i" then "i"
    else if t == "\\% pi" then "\\ensuremath{\\pi} "
    else t
  }

  /** The character at `i`, or NUL past the end. */
  function CharAt(s: string, i: nat): char
  {
    if i < |s| then s[i] else '\0'
  }

  /** The label without its first and last character (empty for fewer than two). */
  function LabelBody(t: string): string
  {
    if |t| < 2 then "" else t[1..|t| - 1]
  }

  function ItalicUmlauts(s: string): string
  {
    var t1 := ReplaceAll(s, "\\text{\U{00E4}}", "\\text{\\textit{\U{00E4}}}");
    var t2 := ReplaceAll(t1, "\\text{\U{00F6}}", "\\text{\\textit{\U{00F6}}}");
    var t3 := ReplaceAll(t2, "\\text{\U{00FC}}", "\\text{\\textit{\U{00FC}}}");
    var t4 := ReplaceAll(t3, "\\text{\U{00C4}}", "\\text{\\textit{\U{00C4}}}");
    var t5 := ReplaceAll(t4, "\\text{\U{00D6}}", "\\text{\\textit{\U{00D6}}}");
    ReplaceAll(t5, "\\text{\U{00DC}}", "\\text{\\textit{\U{00DC}}}")
  }

  /** The per-style wrapping of ToTeX for styles other than Greek and special constants. */
  function StyleTeX(t: string, leaf: Leaf, ctx: Context): string
  {
    match leaf.style
    case Label => (if ctx.previous.Some? then "\\]\n\\[" else "") + "\\tag{" + LabelBody(TrimRight(t)) + "}"
    case UserLabel => (if ctx.previous.Some? then "\\]\n\\[" else "") + "\\tag{" + LabelBody(TrimRight(t)) + "}"
    case FunctionName => if t != "" then "\\operatorname{" + t + "}" else t
    case Variable =>
      var a := if |leaf.displayedText| > 1 && CharAt(t, 1) != '_' then "\\mathit{" + t + "}" else t;
      ItalicUmlauts(if a == "\\% pi" then "\\ensuremath{\\pi} " else a)
    case Error => if |t| > 1 then "\\mbox{" + t + "}" else t
    case Warning => if |t| > 1 then "\\mbox{" + t + "}" else t
    case DefaultStyle => if |t| > 2 && t != "\\," && t != "\\, " then "\\mbox{" + t + "}" else t
    case _ => t
  }

  /** Styles whose TeX keeps a caret as the superscript operator. */
  predicate CaretStyle(style: TextStyle)
  {
    style in {FunctionName, Outdated, Variable, Number, GreekConstant, SpecialConstant}
  }

  /** ToTeX. */
  function ToTeX(leaf: Leaf, cfg: Config, ctx: Context): string
  {
    var t := ProductTeX(leaf, cfg, ctx);
    if leaf.style == GreekConstant then
      (match GreekConstantTeX(t) case Some(m) => m case None => t)
    else if leaf.style == SpecialConstant then SpecialConstantTeX(t)
    else TeXFinish(StyleTeX(t, leaf, ctx), leaf)
  }

  /** The last steps of ToTeX: carets spelled out in text styles, forced line breaks, a space after labels. */
  function TeXFinish(body: string, leaf: Leaf): string
  {
    var caret := if CaretStyle(leaf.style) then body else ReplaceAll(body, "^", "\\textasciicircum");
    var broken :=
      if (leaf.style == DefaultStyle || leaf.style == QuotedString) && |caret| > 1 && (leaf.forceBreakLine || leaf.breakLine)
      then "\\mbox{}\\\\" + caret else caret;
    if IsLabelStyle(leaf.style) then broken + " " else broken
  }

  /** The spacer a hidden multiplication sign becomes. */
  function ProductSpacer(ctx: Context): string
  {
    if SpacedProduct(ctx) then "\\, " else " "
  }

  lemma HiddenProductTeXSpacer(leaf: Leaf, cfg: Config, ctx: Context)
    requires Hidden(leaf, cfg) && leaf.style == DefaultStyle
    requires ShownText(leaf, cfg, leaf.displayedText) in {"*", [MiddleDot]}
    ensures ProductTeX(leaf, cfg, ctx) == ProductSpacer(ctx)
  {
    var s := TeXSource(leaf, cfg);
    assert s == ShownText(leaf, cfg, leaf.displayedText);
    TeXSymbolsKeepProducts(s, DefaultStyle, '\U{22BD}');
  }

  lemma DefaultSpacerFinish(leaf: Leaf, ctx: Context)
    requires leaf.style == DefaultStyle && !leaf.forceBreakLine && !leaf.breakLine
    ensures TeXFinish(StyleTeX(ProductSpacer(ctx), leaf, ctx), leaf) == ProductSpacer(ctx)
  {
    var sp := ProductSpacer(ctx);
    assert StyleTeX(sp, leaf, ctx) == sp;
    MissingCharUnchanged(sp, '^', "\\textasciicircum");
  }

  /**
   * A hidden multiplication sign of the default style exports as a thin space
   * under the two-variable condition and as a plain space otherwise.
   */
  lemma HiddenProductInTeX(leaf: Leaf, cfg: Config, ctx: Context)
    requires Hidden(leaf, cfg) && leaf.style == DefaultStyle
    requires ShownText(leaf, cfg, leaf.displayedText) in {"*", [MiddleDot]}
    requires !leaf.forceBreakLine && !leaf.breakLine
    ensures ToTeX(leaf, cfg, ctx) == if SpacedProduct(ctx) then "\\, " else " "
  {
    HiddenProductTeXSpacer(leaf, cfg, ctx);
    DefaultSpacerFinish(leaf, ctx);
  }

  /** Any other hidden default-style text exports as nothing. */
  lemma HiddenOtherInTeX(leaf: Leaf, cfg: Config, ctx: Context)
    requires Hidden(leaf, cfg) && leaf.style == DefaultStyle
    requires TeXSymbols(TeXSource(leaf, cfg), leaf.style) !in {"*", [MiddleDot]}
    ensures ToTeX(leaf, cfg, ctx) == ""
  {
    HiddenOtherProduct(leaf, cfg, ctx);
    EmptyFinish(leaf, ctx);
  }

  lemma HiddenOtherProduct(leaf: Leaf, cfg: Config, ctx: Context)
    requires Hidden(leaf, cfg)
    requires TeXSymbols(TeXSource(leaf, cfg), leaf.style) !in {"*", [MiddleDot]}
    ensures ProductTeX(leaf, cfg, ctx) == ""
  {
  }

  lemma EmptyFinish(leaf: Leaf, ctx: Context)
    requires leaf.style == DefaultStyle
    ensures TeXFinish(StyleTeX("", leaf, ctx), leaf) == ""
  {
    MissingCharUnchanged("", '^', "\\textasciicircum");
  }

  // ---------------------------------------------------------------------
  // MathML and OMML

  /** Hidden text keeps only an invisible-times entity for a multiplication sign; then '*' becomes a dot. */
  function HideProduct(t: string, hidden: bool): string
  {
    var h := if hidden then
        var x := ReplaceAll(ReplaceAll(t, "*", InvisibleTimes), [MiddleDot], InvisibleTimes);
        if x != InvisibleTimes then "" else x
      else t;
    ReplaceAll(h, "*", [MiddleDot])
  }

  /** A hidden cell's content is the invisible-times entity or nothing. */
  lemma HideProductKeepsInvisibleTimes(t: string)
    ensures HideProduct(t, true) in {InvisibleTimes, ""}
    ensures HideProduct("*", true) == InvisibleTimes && HideProduct([MiddleDot], true) == InvisibleTimes
  {
    MissingCharUnchanged(InvisibleTimes, '*', [MiddleDot]);
    MissingCharUnchanged(InvisibleTimes, MiddleDot, InvisibleTimes);
    MissingCharUnchanged("", '*', [MiddleDot]);
    MissingCharUnchanged([MiddleDot], '*', InvisibleTimes);
    assert ReplaceAll("*", "*", InvisibleTimes) == InvisibleTimes;
    assert ReplaceAll([MiddleDot], [MiddleDot], InvisibleTimes) == InvisibleTimes;
  }

  function MathMLText(leaf: Leaf, cfg: Config, co: Collaborators): string
  {
    var t := if cfg.useUserLabels && leaf.userDefinedLabel != "" then co.xml("(" + leaf.userDefinedLabel + ")")
             else co.xml(leaf.displayedText);
    HideProduct(t, Hidden(leaf, cfg))
  }

  /** ToMathML. */
  function ToMathML(leaf: Leaf, cfg: Config, co: Collaborators): string
  {
    if leaf.displayedText == "" then ""
    else if PlainMathMLStyle(leaf.style) then MathMLElement(MathMLText(leaf, cfg, co))
    else MathMLSymbol(leaf, cfg, co)
  }

  /** The styles whose MathML is the cell's escaped text in an operator or string element. */
  predicate PlainMathMLStyle(style: TextStyle)
  {
    style !in {GreekConstant, SpecialConstant, Variable, FunctionName, Number, Label, UserLabel}
  }

  /** A string element for quoted text, an operator element otherwise. */
  function MathMLElement(t: string): string
  {
    if |t| > 0 && t[0] == '"' then "<ms>" + t + "</ms>\n" else "<mo>" + t + "</mo>\n"
  }

  /** The MathML of the styles with elements of their own. */
  function MathMLSymbol(leaf: Leaf, cfg: Config, co: Collaborators): string
  {
    var t := MathMLText(leaf, cfg, co);
    var g := GreekUnicode(leaf.text);
    match leaf.style
    case GreekConstant => "<mo>" + g + "</mo>\n"
    case SpecialConstant =>
      "<mo>" + (if !cfg.keepPercent && g == "%e" then "e" else if !cfg.keepPercent && g == "%i" then "i" else g) + "</mo>\n"
    case Variable => "<mo>" + (if !cfg.keepPercent && g == "%pi" then "\U{03C0}" else g) + "</mo>\n"
    case FunctionName =>
      var f := if g == "inf" then "\U{221E}" else g;
      if f in {"+", "-", "*", "/"} then "<mo>" + f + "</mo>\n" else "<mi>" + f + "</mi>\n"
    case Number => "<mn>" + t + "</mn>\n"
    case _ => "<mtext>" + t + "</mtext></mtd><mtd>\n"
  }

  lemma MathMLTextHidden(leaf: Leaf, cfg: Config, co: Collaborators)
    requires Hidden(leaf, cfg)
    ensures MathMLText(leaf, cfg, co) == InvisibleTimes || MathMLText(leaf, cfg, co) == ""
  {
    var x := if cfg.useUserLabels && leaf.userDefinedLabel != "" then co.xml("(" + leaf.userDefinedLabel + ")") else co.xml(leaf.displayedText);
    HideProductKeepsInvisibleTimes(x);
  }

  /**
   * In MathML a hidden cell of a plain style keeps only the invisible-times
   * entity, for a multiplication sign, or nothing, in an operator element.
   */
  lemma HiddenProductInMathML(leaf: Leaf, cfg: Config, co: Collaborators)
    requires Hidden(leaf, cfg) && leaf.displayedText != "" && PlainMathMLStyle(leaf.style)
    ensures ToMathML(leaf, cfg, co) in {"<mo>" + InvisibleTimes + "</mo>\n", "<mo></mo>\n"}
  {
    MathMLTextHidden(leaf, cfg, co);
    var t := MathMLText(leaf, cfg, co);
    assert MathMLElement(t) == "<mo>" + t + "</mo>\n";
    if t == "" {
      assert "<mo>" + t + "</mo>\n" == "<mo></mo>\n";
    }
  }

  /** Text-only lines go to RTF: a hard line break after a non-label, soft-breaking cell. */
  predicate TextOnlyLine(leaf: Leaf, ctx: Context)
  {
    ctx.previous.Some? && ctx.previous.value.style != Label && !ctx.previous.value.hardLineBreak && leaf.hardLineBreak
  }

  /** ToOMML. */
  function ToOMML(leaf: Leaf, cfg: Config, co: Collaborators, ctx: Context): string
  {
    if TextOnlyLine(leaf, ctx) || IsLabelStyle(leaf.style) then ""
    else "<m:r>" + OMMLText(leaf, HideProduct(co.xml(leaf.displayedText), Hidden(leaf, cfg)), cfg.keepPercent) + "</m:r>\n"
  }

  /** The run text: %e, %i and %pi spelled out for constants and variables, Greek letters for functions. */
  function OMMLText(leaf: Leaf, t: string, keepPercent: bool): string
  {
    var kp := keepPercent;
    match leaf.style
    case GreekConstant =>
      var a := if !kp && t == "%e" then "e" else if !kp && t == "%i" then "i" else t;
      if !kp && a == "%pi" then "\U{03C0}" else a
    case SpecialConstant =>
      var a := if !kp && t == "%e" then "e" else if !kp && t == "%i" then "i" else t;
      if !kp && a == "%pi" then "\U{03C0}" else a
    case Variable => if !kp && t == "%pi" then "\U{03C0}" else t
    case FunctionName =>
      var g := GreekUnicode(leaf.text);
      if g == "inf" then "\U{221E}" else g
    case _ => t
  }

  /** In OMML a hidden cell other than a function name is an invisible times or an empty run. */
  lemma HiddenProductInOMML(leaf: Leaf, cfg: Config, co: Collaborators, ctx: Context)
    requires Hidden(leaf, cfg) && leaf.style != FunctionName
    requires !TextOnlyLine(leaf, ctx) && !IsLabelStyle(leaf.style)
    ensures ToOMML(leaf, cfg, co, ctx) == "<m:r>" + InvisibleTimes + "</m:r>\n" || ToOMML(leaf, cfg, co, ctx) == "<m:r>" + "</m:r>\n"
  {
    var t := HideProduct(co.xml(leaf.displayedText), true);
    HideProductKeepsInvisibleTimes(co.xml(leaf.displayedText));
    OMMLTextKeepsProduct(leaf, t, cfg.keepPercent);
    if t == "" {
      assert "<m:r>" + t == "<m:r>";
    }
  }

  /** The run text of a hidden product is the product sign or nothing, whatever the style. */
  lemma OMMLTextKeepsProduct(leaf: Leaf, t: string, keepPercent: bool)
    requires leaf.style != FunctionName && (t == InvisibleTimes || t == "")
    ensures OMMLText(leaf, t, keepPercent) == t
  {
    assert t == "" || t[0] == '&';
  }

  // ---------------------------------------------------------------------
  // RTF and XML

  /** ToRTF: a space for an empty cell, the escaped label in its style's colour for labels, nothing otherwise. */
  function ToRTF(leaf: Leaf, cfg: Config, co: Collaborators): string
  {
    if leaf.displayedText == "" then " "
    else
      var t := ReplaceAll(ReplaceAll(ShownText(leaf, cfg, leaf.displayedText), "-->", [RightArrow]), " --> ", [RightArrow]);
      if IsLabelStyle(leaf.style) then "\\cf" + IntToString(co.styleCode(leaf.style)) + "{" + co.rtf(t) + "}\\cf0"
      else ""
  }

  /** Once every `-->` is an arrow, no ` --> ` is left, so ToRTF's second replacement changes nothing. */
  lemma SpacedArrowGone(t: string)
    ensures var once := ReplaceAll(t, "-->", [RightArrow]);
      ReplaceAll(once, " --> ", [RightArrow]) == once
  {
    var once := ReplaceAll(t, "-->", [RightArrow]);
    ReplaceAllLeavesNoMatch(t, "-->", RightArrow);
    if HasSub(once, " --> ") {
      assert " --> " == [' '] + "--> ";
      HasSubDropFirst(once, ' ', "--> ");
      assert "--> " == "-->" + " ";
      HasSubPrefix(once, "-->", " ");
    }
    ReplaceAllMissing(once, " --> ", [RightArrow]);
  }

  /**
   * Only labels and empty cells have RTF. A label is its style's colour code
   * and a group holding the escaped label text: the user-defined label in
   * parentheses when those are shown, else the displayed text, with every
   * `-->` made an arrow.
   */
  lemma RTFCases(leaf: Leaf, cfg: Config, co: Collaborators)
    ensures leaf.displayedText == "" ==> ToRTF(leaf, cfg, co) == " "
    ensures leaf.displayedText != "" && !IsLabelStyle(leaf.style) ==> ToRTF(leaf, cfg, co) == ""
    ensures leaf.displayedText != "" && IsLabelStyle(leaf.style) ==>
      var text := if cfg.useUserLabels && leaf.userDefinedLabel != "" then "(" + leaf.userDefinedLabel + ")" else leaf.displayedText;
      ToRTF(leaf, cfg, co) == "\\cf" + IntToString(co.styleCode(leaf.style)) + "{" + co.rtf(ReplaceAll(text, "-->", [RightArrow])) + "}\\cf0"
  {
    SpacedArrowGone(ShownText(leaf, cfg, leaf.displayedText));
  }

  /** The XML tag: "h" for hidden cells and hidable multiplication signs, else by style. */
  function XmlTag(leaf: Leaf): string
  {
    if leaf.isHidden || leaf.isHidableMultSign then "h"
    else match leaf.style
      case GreekConstant => "g"
      case SpecialConstant => "s"
      case Variable => "v"
      case FunctionName => "fnm"
      case Number => "n"
      case QuotedString => "st"
      case Label => "lbl"
      case UserLabel => "lbl"
      case _ => "t"
  }

  /** The attribute names a text cell writes. */
  datatype AttributeName = UserDefined | BreakLine | Type | UserDefinedLabel | AltCopy | ToolTip

  /** The attribute name as it appears in the file. */
  function AttributeText(n: AttributeName): string
  {
    match n
    case UserDefined => "userdefined"
    case BreakLine => "breakline"
    case Type => "type"
    case UserDefinedLabel => "userdefinedlabel"
    case AltCopy => "altCopy"
    case ToolTip => "tooltip"
  }

  datatype XmlAttribute = XmlAttribute(name: AttributeName, value: string)

  /** An attribute that is written only when `present` holds. */
  function OptionalAttribute(present: bool, name: AttributeName, value: string): seq<XmlAttribute>
  {
    if present then [XmlAttribute(name, value)] else []
  }

  /** The attributes ToXML writes, in order. */
  function XmlAttributes(leaf: Leaf, co: Collaborators): seq<XmlAttribute>
  {
    OptionalAttribute(!(leaf.isHidden || leaf.isHidableMultSign) && leaf.style == UserLabel, UserDefined, "yes")
    + OptionalAttribute(leaf.forceBreakLine && !IsLabelStyle(leaf.style), BreakLine, "true")
    + OptionalAttribute(leaf.style == Error, Type, "error")
    + OptionalAttribute(leaf.style == Warning, Type, "warning")
    + OptionalAttribute(leaf.userDefinedLabel != "", UserDefinedLabel, co.xml(leaf.userDefinedLabel))
    + OptionalAttribute(leaf.altCopyText != "", AltCopy, co.xml(leaf.altCopyText))
    + OptionalAttribute(leaf.toolTip != "", ToolTip, co.xml(leaf.toolTip))
  }

  function RenderAttributes(attrs: seq<XmlAttribute>): string
  {
    if |attrs| == 0 then "" else " " + AttributeText(attrs[0].name) + "=\"" + attrs[0].value + "\"" + RenderAttributes(attrs[1..])
  }

  /** ToXML; it reads no configuration. */
  function ToXML(leaf: Leaf, co: Collaborators): string
  {
    var tag := XmlTag(leaf);
    "<" + tag + RenderAttributes(XmlAttributes(leaf, co)) + ">" + co.xml(leaf.displayedText) + "</" + tag + ">"
  }

  /** The names of a list of attributes. */
  function AttributeNames(attrs: seq<XmlAttribute>): set<AttributeName>
  {
    if |attrs| == 0 then {} else {attrs[0].name} + AttributeNames(attrs[1..])
  }

  lemma {:induction false} AttributeNamesConcat(a: seq<XmlAttribute>, b: seq<XmlAttribute>)
    ensures AttributeNames(a + b) == AttributeNames(a) + AttributeNames(b)
    decreases |a|
  {
    if |a| == 0 {
      assert a + b == b;
    } else {
      assert (a + b)[0] == a[0] && (a + b)[1..] == a[1..] + b;
      AttributeNamesConcat(a[1..], b);
    }
  }

  /** The name list of an attribute that is written only when `present` holds. */
  function OptionalName(present: bool, name: AttributeName): set<AttributeName>
  {
    if present then {name} else {}
  }

  lemma OptionalAttributeName(present: bool, name: AttributeName, value: string)
    ensures AttributeNames(OptionalAttribute(present, name, value)) == OptionalName(present, name)
  {
    if present {
      assert OptionalAttribute(present, name, value)[1..] == [];
    }
  }

  /** The names of seven optional attributes are the seven optional names, in order. */
  lemma NamesOfOptionalAttributes(c1: bool, n1: AttributeName, v1: string, c2: bool, n2: AttributeName, v2: string,
                                  c3: bool, n3: AttributeName, v3: string, c4: bool, n4: AttributeName, v4: string,
                                  c5: bool, n5: AttributeName, v5: string, c6: bool, n6: AttributeName, v6: string,
                                  c7: bool, n7: AttributeName, v7: string)
    ensures AttributeNames(OptionalAttribute(c1, n1, v1) + OptionalAttribute(c2, n2, v2) + OptionalAttribute(c3, n3, v3) +
                           OptionalAttribute(c4, n4, v4) + OptionalAttribute(c5, n5, v5) + OptionalAttribute(c6, n6, v6) +
                           OptionalAttribute(c7, n7, v7)) ==
      OptionalName(c1, n1) + OptionalName(c2, n2) + OptionalName(c3, n3) + OptionalName(c4, n4) +
      OptionalName(c5, n5) + OptionalName(c6, n6) + OptionalName(c7, n7)
  {
    var s1, s2, s3, s4 := OptionalAttribute(c1, n1, v1), OptionalAttribute(c2, n2, v2), OptionalAttribute(c3, n3, v3), OptionalAttribute(c4, n4, v4);
    var s5, s6, s7 := OptionalAttribute(c5, n5, v5), OptionalAttribute(c6, n6, v6), OptionalAttribute(c7, n7, v7);
    AttributeNamesConcat(s1, s2);
    AttributeNamesConcat(s1 + s2, s3);
    AttributeNamesConcat(s1 + s2 + s3, s4);
    AttributeNamesConcat(s1 + s2 + s3 + s4, s5);
    AttributeNamesConcat(s1 + s2 + s3 + s4 + s5, s6);
    AttributeNamesConcat(s1 + s2 + s3 + s4 + s5 + s6, s7);
    OptionalAttributeName(c1, n1, v1);
    OptionalAttributeName(c2, n2, v2);
    OptionalAttributeName(c3, n3, v3);
    OptionalAttributeName(c4, n4, v4);
    OptionalAttributeName(c5, n5, v5);
    OptionalAttributeName(c6, n6, v6);
    OptionalAttributeName(c7, n7, v7);
  }

  /** The names of the attributes ToXML writes, one optional name after the other. */
  lemma XmlAttributeNames(leaf: Leaf, co: Collaborators)
    ensures AttributeNames(XmlAttributes(leaf, co)) ==
      OptionalName(!(leaf.isHidden || leaf.isHidableMultSign) && leaf.style == UserLabel, UserDefined) +
      OptionalName(leaf.forceBreakLine && !IsLabelStyle(leaf.style), BreakLine) +
      OptionalName(leaf.style == Error, Type) +
      OptionalName(leaf.style == Warning, Type) +
      OptionalName(leaf.userDefinedLabel != "", UserDefinedLabel) +
      OptionalName(leaf.altCopyText != "", AltCopy) +
      OptionalName(leaf.toolTip != "", ToolTip)
  {
    NamesOfOptionalAttributes(
      !(leaf.isHidden || leaf.isHidableMultSign) && leaf.style == UserLabel, UserDefined, "yes",
      leaf.forceBreakLine && !IsLabelStyle(leaf.style), BreakLine, "true",
      leaf.style == Error, Type, "error",
      leaf.style == Warning, Type, "warning",
      leaf.userDefinedLabel != "", UserDefinedLabel, co.xml(leaf.userDefinedLabel),
      leaf.altCopyText != "", AltCopy, co.xml(leaf.altCopyText),
      leaf.toolTip != "", ToolTip, co.xml(leaf.toolTip));
  }

  /** Which names the attribute list holds, for any choice of the attributes written. */
  lemma XmlNamesPresent(c1: bool, c2: bool, c3: bool, c4: bool, c5: bool, c6: bool, c7: bool)
    ensures var names := OptionalName(c1, UserDefined) + OptionalName(c2, BreakLine) + OptionalName(c3, Type) +
                         OptionalName(c4, Type) + OptionalName(c5, UserDefinedLabel) + OptionalName(c6, AltCopy) +
                         OptionalName(c7, ToolTip);
      (UserDefined in names <==> c1) && (BreakLine in names <==> c2) && (Type in names <==> c3 || c4) &&
      (UserDefinedLabel in names <==> c5) && (AltCopy in names <==> c6) && (ToolTip in names <==> c7)
  {
  }

  /**
   * The tag is "h" for hidden cells whatever the style; user labels carry
   * userdefined="yes"; breakline appears only for forced breaks outside
   * labels; an error or a warning gives a type; and the label, alternative
   * copy text and tool tip appear exactly when they are not empty.
   */
  lemma XmlTagsAndAttributes(leaf: Leaf, co: Collaborators)
    ensures leaf.isHidden || leaf.isHidableMultSign ==> XmlTag(leaf) == "h"
    ensures var names := AttributeNames(XmlAttributes(leaf, co));
      (UserDefined in names <==> XmlTag(leaf) == "lbl" && leaf.style == UserLabel) &&
      (BreakLine in names <==> leaf.forceBreakLine && !IsLabelStyle(leaf.style)) &&
      (UserDefinedLabel in names <==> leaf.userDefinedLabel != "") &&
      (AltCopy in names <==> leaf.altCopyText != "") &&
      (ToolTip in names <==> leaf.toolTip != "") &&
      (Type in names <==> leaf.style in {Error, Warning})
  {
    XmlAttributeNames(leaf, co);
    XmlNamesPresent(!(leaf.isHidden || leaf.isHidableMultSign) && leaf.style == UserLabel,
      leaf.forceBreakLine && !IsLabelStyle(leaf.style), leaf.style == Error, leaf.style == Warning,
      leaf.userDefinedLabel != "", leaf.altCopyText != "", leaf.toolTip != "");
  }

  // ---------------------------------------------------------------------
  // Glyph tables

  /** GetSymbolUnicode, in the variant for platforms other than Windows. */
  function SymbolUnicode(text: string, keepPercent: bool): string
  {
    if text == "+" then "+"
    else if text == "=" then "="
    else if text == "inf" then "\U{221E}"
    else if text == "%pi" then "\U{03C0}"
    else if text == "<=" then "\U{2264}"
    else if text == ">=" then "\U{2265}"
    else if text == " and " then " \U{22C0} "
    else if text == " or " then " \U{22C1} "
    else if text == " xor " then " \U{22BB} "
    else if text == " nand " then " \U{22BC} "
    else if text == " nor " then " \U{22BD} "
    else if text == " implies " then " \U{21D2} "
    else if text == " equiv " then " \U{21D4} "
    else if text == "not" then "\U{00AC}"
    else if text == "->" then "\U{2192}"
    else if text == "-->" then "\U{2794}"
    else if text == " --> " then "\U{2794}"
    else if text == [' ', MinusSign, RightArrow, ' '] then "\U{2794}"
    else if !keepPercent && text == "%e" then "e"
    else if !keepPercent && text == "%i" then "i"
    else if !keepPercent && text == "%pi" then "\U{03C0}"
    else ""
  }

  /** GetSymbolTeX: the TeX-font character of a symbol, "" if there is none. */
  function SymbolTeX(text: string): string
  {
    if text == "inf" then "1"
    else if text == "+" then "+"
    else if text == "%pi" then "\U{00D9}"
    else if text == "=" then "="
    else if text == "->" then "!"
    else if text == ">=" then "\U{00D5}"
    else if text == "<=" then "\U{00D4}"
    else ""
  }

  /**
   * Keeping percent signs matters only for %e and %i (the %pi entry behind
   * the setting is never reached), and every symbol with a TeX-font glyph
   * also has a Unicode one.
   */
  lemma SymbolTables(text: string)
    ensures SymbolUnicode(text, true) != SymbolUnicode(text, false) ==> text == "%e" || text == "%i"
    ensures SymbolTeX(text) != "" ==> SymbolUnicode(text, true) != "" && SymbolUnicode(text, false) != ""
  {
  }

  // ---------------------------------------------------------------------
  // Alternative glyphs

  /** The TeX fonts; NoTeXFont is the value before any is chosen. */
  datatype TeXFont = NoTeXFont | CMR10 | CMMI10 | CMSY10

  /** The alternative glyphs a cell may be drawn with. */
  datatype AltGlyphs = AltGlyphs(alt: bool, altText: string, altJs: bool, altJsText: string, texFont: TeXFont)

  /** SetAltText: the glyphs after the call, given those before it. */
  function NextAltGlyphs(g: AltGlyphs, text: string, style: TextStyle, cfg: Config): AltGlyphs
  {
    var cleared := g.(alt := false, altJs := false);
    if style == DefaultStyle && |text| > 0 && text[0] == '"' then cleared
    else if style == GreekConstant then
      if cfg.latin2Greek then AltGlyphs(true, GreekUnicode(text), true, GreekTeX(text), CMMI10) else cleared
    else
      var js := SymbolTeX(text);
      var u := SymbolUnicode(text, cfg.keepPercent);
      var font := if js == "" then g.texFont
                  else if text == "+" || text == "=" then CMR10
                  else if text == "%pi" then CMMI10
                  else CMSY10;
      AltGlyphs(u != "", u, js != "", js, font)
  }

  /**
   * Outside Greek constants and strings, each flag is set exactly when its
   * glyph text is not empty; a TeX glyph comes with a Unicode one; the TeX
   * font is CMR10 for + and =, CMMI10 for %pi and CMSY10 for the rest.  A
   * Greek constant with a known name gets both glyphs when Latin-to-Greek is
   * on, and neither when it is off.
   */
  lemma AltGlyphsChoice(g: AltGlyphs, text: string, style: TextStyle, cfg: Config)
    ensures var n := NextAltGlyphs(g, text, style, cfg);
      (style != GreekConstant && !(style == DefaultStyle && |text| > 0 && text[0] == '"') ==>
        (n.alt <==> n.altText != "") && (n.altJs <==> n.altJsText != "") && (n.altJs ==> n.alt) &&
        (n.altJs ==> (n.texFont == CMR10 <==> text in {"+", "="}) && (n.texFont == CMMI10 <==> text == "%pi"))) &&
      (style == GreekConstant && GreekLetter(PercentName(text)).Some? ==>
        (n.alt <==> cfg.latin2Greek) && (n.altJs <==> cfg.latin2Greek) &&
        (cfg.latin2Greek ==> |n.altText| == 1 && |n.altJsText| == 1))
  {
    SymbolTables(text);
    GreekTablesAgree(PercentName(text));
  }

  // ---------------------------------------------------------------------
  // The cell

  /** A text cell with the fields its operations update. */
  class TextCell {
    var text: string
    var displayedText: string
    var style: TextStyle
    var cellType: CellType
    var parts: NumberParts
    var displayedDigitsOld: int
    var userDefinedLabel: string
    var altCopyText: string
    var toolTip: string
    var glyphs: AltGlyphs
    var isHidden: bool
    var isHidableMultSign: bool
    var suppressMultiplicationDot: bool
    var dontEscapeOpeningParenthesis: bool
    var forceBreakLine: bool
    var breakLine: bool
    var hardLineBreak: bool

    /** The cell as its exports see it. */
    function AsLeaf(): Leaf
      reads this
    {
      Leaf(text, displayedText, userDefinedLabel, altCopyText, toolTip, style, isHidden, isHidableMultSign,
           suppressMultiplicationDot, dontEscapeOpeningParenthesis, forceBreakLine, breakLine, hardLineBreak)
    }

    /** A new cell: the type follows the style, and the text is set as SetValue sets it. */
    constructor(t: string, s: TextStyle, cfg: Config)
      ensures style == s && cellType == TypeOfStyle(s)
      ensures text == InputSubstitutions(t) && displayedText == DisplayFor(text, s)
      ensures parts == (if s == Number then Truncate(displayedText, cfg.displayedDigits) else NumberParts("", "", ""))
      ensures displayedDigitsOld == cfg.displayedDigits as int
      ensures !glyphs.alt && !glyphs.altJs
      ensures userDefinedLabel == "" && altCopyText == "" && !isHidden && !dontEscapeOpeningParenthesis && !hardLineBreak
    {
      style := s;
      cellType := TypeOfStyle(s);
      text := InputSubstitutions(t);
      displayedText := DisplayFor(InputSubstitutions(t), s);
      parts := if s == Number then Truncate(DisplayFor(InputSubstitutions(t), s), cfg.displayedDigits) else NumberParts("", "", "");
      displayedDigitsOld := cfg.displayedDigits as int;
      glyphs := AltGlyphs(false, "", false, "", NoTeXFont);
      userDefinedLabel := "";
      altCopyText := "";
      toolTip := "";
      isHidden := false;
      isHidableMultSign := false;
      suppressMultiplicationDot := false;
      dontEscapeOpeningParenthesis := false;
      forceBreakLine := false;
      breakLine := false;
      hardLineBreak := false;
    }

    /**
     * SetValue: the text gets the input substitutions, the displayed text
     * follows it, a number is split anew, the displayed-digits setting is
     * remembered and the alternative glyphs are switched off.
     */
    method SetValue(t: string, cfg: Config)
      modifies this
      ensures text == InputSubstitutions(t) && displayedText == DisplayFor(text, style)
      ensures parts == if style == Number then Truncate(displayedText, cfg.displayedDigits) else old(parts)
      ensures displayedDigitsOld == cfg.displayedDigits as int
      ensures glyphs == old(glyphs).(alt := false, altJs := false)
      ensures style == old(style) && cellType == old(cellType) && userDefinedLabel == old(userDefinedLabel)
      ensures altCopyText == old(altCopyText) && hardLineBreak == old(hardLineBreak)
      ensures isHidden == old(isHidden) && isHidableMultSign == old(isHidableMultSign)
      ensures suppressMultiplicationDot == old(suppressMultiplicationDot)
      ensures dontEscapeOpeningParenthesis == old(dontEscapeOpeningParenthesis)
      ensures forceBreakLine == old(forceBreakLine) && breakLine == old(breakLine)
    {
      var tx := InputSubstitutions(t);
      var shown := DisplayFor(tx, style);
      var split := parts;
      if style == Number {
        split := Truncate(shown, cfg.displayedDigits);
      }
      displayedDigitsOld, text, displayedText, parts := cfg.displayedDigits as int, tx, shown, split;
      glyphs := glyphs.(alt := false, altJs := false);
    }

    /**
     * SetStyle: the style changes, gamma and psi functions show as capital
     * Greek letters, and labels and prompts start a hard line.
     */
    method SetStyle(s: TextStyle)
      modifies this
      ensures style == s
      ensures displayedText == if s == FunctionName && text in {"gamma", "psi"} then DisplayFor(text, s) else old(displayedText)
      ensures hardLineBreak == (old(hardLineBreak) || s in {Label, UserLabel, MainPrompt, OtherPrompt})
      ensures text == old(text) && parts == old(parts) && glyphs == old(glyphs) && cellType == old(cellType)
      ensures displayedDigitsOld == old(displayedDigitsOld) && userDefinedLabel == old(userDefinedLabel)
      ensures altCopyText == old(altCopyText) && toolTip == old(toolTip)
      ensures isHidden == old(isHidden) && isHidableMultSign == old(isHidableMultSign)
      ensures suppressMultiplicationDot == old(suppressMultiplicationDot)
      ensures dontEscapeOpeningParenthesis == old(dontEscapeOpeningParenthesis)
      ensures forceBreakLine == old(forceBreakLine) && breakLine == old(breakLine)
    {
      style := s;
      if text == "gamma" && style == FunctionName {
        displayedText := "\U{0393}";
      }
      if text == "psi" && style == FunctionName {
        displayedText := "\U{03A8}";
      }
      if s == Label || s == UserLabel || s == MainPrompt || s == OtherPrompt {
        hardLineBreak := true;
      }
    }

    /** SetAltText. */
    method SetAltText(cfg: Config)
      modifies this
      ensures glyphs == NextAltGlyphs(old(glyphs), text, style, cfg)
      ensures text == old(text) && style == old(style) && displayedText == old(displayedText) && parts == old(parts)
      ensures displayedDigitsOld == old(displayedDigitsOld) && userDefinedLabel == old(userDefinedLabel)
      ensures cellType == old(cellType) && altCopyText == old(altCopyText) && toolTip == old(toolTip)
      ensures isHidden == old(isHidden) && isHidableMultSign == old(isHidableMultSign)
      ensures suppressMultiplicationDot == old(suppressMultiplicationDot)
      ensures dontEscapeOpeningParenthesis == old(dontEscapeOpeningParenthesis)
      ensures forceBreakLine == old(forceBreakLine) && breakLine == old(breakLine) && hardLineBreak == old(hardLineBreak)
    {
      glyphs := NextAltGlyphs(glyphs, text, style, cfg);
    }

    /**
     * The non-drawing part of RecalculateWidths: when a recalculation is due,
     * the label style is switched, the alternative glyphs are chosen for the
     * switched style, and a number whose displayed-digits setting changed is
     * set anew, which splits it for the new setting.  When none is due,
     * nothing changes.  Afterwards only the general cell's reasons can ask
     * for another recalculation.
     */
    method RecalculateWidths(cfg: Config, cellNeeds: bool)
      modifies this
      ensures !NeedsRecalculation(false, style, cfg, userDefinedLabel, displayedDigitsOld)
      ensures var due := NeedsRecalculation(cellNeeds, old(style), cfg, old(userDefinedLabel), old(displayedDigitsOld));
        style == (if due then SwitchLabelStyle(old(style), cfg.useUserLabels, old(userDefinedLabel)) else old(style))
      ensures var due := NeedsRecalculation(cellNeeds, old(style), cfg, old(userDefinedLabel), old(displayedDigitsOld));
        var reset := due && style == Number && old(displayedDigitsOld) != cfg.displayedDigits as int;
        var chosen := NextAltGlyphs(old(glyphs), old(text), style, cfg);
        (!due ==> glyphs == old(glyphs)) &&
        (due && !reset ==> glyphs == chosen) &&
        (reset ==> glyphs == chosen.(alt := false, altJs := false)) &&
        (reset ==> text == InputSubstitutions(old(text)) && displayedText == DisplayFor(text, Number) &&
                   parts == Truncate(displayedText, cfg.displayedDigits) && displayedDigitsOld == cfg.displayedDigits as int) &&
        (!reset ==> text == old(text) && displayedText == old(displayedText) && parts == old(parts) &&
                    displayedDigitsOld == old(displayedDigitsOld))
      ensures var due := NeedsRecalculation(cellNeeds, old(style), cfg, old(userDefinedLabel), old(displayedDigitsOld));
        !(due && style == Number && old(displayedDigitsOld) != cfg.displayedDigits as int) ==> toolTip == old(toolTip)
      ensures userDefinedLabel == old(userDefinedLabel) && cellType == old(cellType) && altCopyText == old(altCopyText)
      ensures isHidden == old(isHidden) && isHidableMultSign == old(isHidableMultSign)
      ensures suppressMultiplicationDot == old(suppressMultiplicationDot)
      ensures dontEscapeOpeningParenthesis == old(dontEscapeOpeningParenthesis)
      ensures forceBreakLine == old(forceBreakLine) && breakLine == old(breakLine) && hardLineBreak == old(hardLineBreak)
    {
      if NeedsRecalculation(cellNeeds, style, cfg, userDefinedLabel, displayedDigitsOld) {
        if style == UserLabel && !cfg.useUserLabels {
          style := Label;
        }
        if style == Label && cfg.useUserLabels && userDefinedLabel != "" {
          style := UserLabel;
        }
        SetAltText(cfg);
        if style == Number && displayedDigitsOld != cfg.displayedDigits as int {
          SetValue(text, cfg);
        }
      }
    }
  }
}
