/**
 * The Greek tables of the text cell: the Unicode letter and the TeX-font
 * character for each Greek name, and the TeX macro for each Greek constant.
 */
module Greek {
  import opened Wrappers

  /** A Greek name in its percent form, as the Unicode table writes it. */
  function PercentName(text: string): string
  {
    if |text| > 0 && text[0] == '%' then text else "%" + text
  }

  /** The Unicode table of Greek names. */
  function GreekLetter(name: string): Option<char>
  {
    var r1 := GreekLetter1(name);
    var r2 := GreekLetter2(name);
    var r3 := GreekLetter3(name);
    var r4 := GreekLetter4(name);
    if r1.Some? then r1 else if r2.Some? then r2 else if r3.Some? then r3 else r4
  }

  /** The entries from alpha to mu. */
  function GreekLetter1(name: string): Option<char>
  {
    if name == "%alpha" then Some('\U{03B1}')
    else if name == "%beta" then Some('\U{03B2}')
    else if name == "%gamma" then Some('\U{03B3}')
    else if name == "%delta" then Some('\U{03B4}')
    else if name == "%epsilon" then Some('\U{03B5}')
    else if name == "%zeta" then Some('\U{03B6}')
    else if name == "%eta" then Some('\U{03B7}')
    else if name == "%theta" then Some('\U{03B8}')
    else if name == "%iota" then Some('\U{03B9}')
    else if name == "%kappa" then Some('\U{03BA}')
    else if name == "%lambda" then Some('\U{03BB}')
    else if name == "%mu" then Some('\U{03BC}')
    else None
  }

  /** The entries from nu to omega. */
  function GreekLetter2(name: string): Option<char>
  {
    if name == "%nu" then Some('\U{03BD}')
    else if name == "%xi" then Some('\U{03BE}')
    else if name == "%omicron" then Some('\U{03BF}')
    else if name == "%pi" then Some('\U{03C0}')
    else if name == "%rho" then Some('\U{03C1}')
    else if name == "%sigma" then Some('\U{03C3}')
    else if name == "%tau" then Some('\U{03C4}')
    else if name == "%upsilon" then Some('\U{03C5}')
    else if name == "%phi" then Some('\U{03C6}')
    else if name == "%chi" then Some('\U{03C7}')
    else if name == "%psi" then Some('\U{03C8}')
    else if name == "%omega" then Some('\U{03C9}')
    else None
  }

  /** The entries from Alpha to Mu. */
  function GreekLetter3(name: string): Option<char>
  {
    if name == "%Alpha" then Some('\U{0391}')
    else if name == "%Beta" then Some('\U{0392}')
    else if name == "%Gamma" then Some('\U{0393}')
    else if name == "%Delta" then Some('\U{0394}')
    else if name == "%Epsilon" then Some('\U{0395}')
    else if name == "%Zeta" then Some('\U{0396}')
    else if name == "%Eta" then Some('\U{0397}')
    else if name == "%Theta" then Some('\U{0398}')
    else if name == "%Iota" then Some('\U{0399}')
    else if name == "%Kappa" then Some('\U{039A}')
    else if name == "%Lambda" then Some('\U{039B}')
    else if name == "%Mu" then Some('\U{039C}')
    else None
  }

  /** The entries from Nu to Omega. */
  function GreekLetter4(name: string): Option<char>
  {
    if name == "%Nu" then Some('\U{039D}')
    else if name == "%Xi" then Some('\U{039E}')
    else if name == "%Omicron" then Some('\U{039F}')
    else if name == "%Pi" then Some('\U{03A0}')
    else if name == "%Rho" then Some('\U{03A1}')
    else if name == "%Sigma" then Some('\U{03A3}')
    else if name == "%Tau" then Some('\U{03A4}')
    else if name == "%Upsilon" then Some('\U{03A5}')
    else if name == "%Phi" then Some('\U{03A6}')
    else if name == "%Chi" then Some('\U{03A7}')
    else if name == "%Psi" then Some('\U{03A8}')
    else if name == "%Omega" then Some('\U{03A9}')
    else None
  }

  /** The Greek name a letter of the table stands for. */
  function GreekName(c: char): Option<string>
  {
    if c == '\U{03B1}' then Some("%alpha")
    else if c == '\U{03B2}' then Some("%beta")
    else if c == '\U{03B3}' then Some("%gamma")
    else if c == '\U{03B4}' then Some("%delta")
    else if c == '\U{03B5}' then Some("%epsilon")
    else if c == '\U{03B6}' then Some("%zeta")
    else if c == '\U{03B7}' then Some("%eta")
    else if c == '\U{03B8}' then Some("%theta")
    else if c == '\U{03B9}' then Some("%iota")
    else if c == '\U{03BA}' then Some("%kappa")
    else if c == '\U{03BB}' then Some("%lambda")
    else if c == '\U{03BC}' then Some("%mu")
    else if c == '\U{03BD}' then Some("%nu")
    else if c == '\U{03BE}' then Some("%xi")
    else if c == '\U{03BF}' then Some("%omicron")
    else if c == '\U{03C0}' then Some("%pi")
    else if c == '\U{03C1}' then Some("%rho")
    else if c == '\U{03C3}' then Some("%sigma")
    else if c == '\U{03C4}' then Some("%tau")
    else if c == '\U{03C5}' then Some("%upsilon")
    else if c == '\U{03C6}' then Some("%phi")
    else if c == '\U{03C7}' then Some("%chi")
    else if c == '\U{03C8}' then Some("%psi")
    else if c == '\U{03C9}' then Some("%omega")
    else if c == '\U{0391}' then Some("%Alpha")
    else if c == '\U{0392}' then Some("%Beta")
    else if c == '\U{0393}' then Some("%Gamma")
    else if c == '\U{0394}' then Some("%Delta")
    else if c == '\U{0395}' then Some("%Epsilon")
    else if c == '\U{0396}' then Some("%Zeta")
    else if c == '\U{0397}' then Some("%Eta")
    else if c == '\U{0398}' then Some("%Theta")
    else if c == '\U{0399}' then Some("%Iota")
    else if c == '\U{039A}' then Some("%Kappa")
    else if c == '\U{039B}' then Some("%Lambda")
    else if c == '\U{039C}' then Some("%Mu")
    else if c == '\U{039D}' then Some("%Nu")
    else if c == '\U{039E}' then Some("%Xi")
    else if c == '\U{039F}' then Some("%Omicron")
    else if c == '\U{03A0}' then Some("%Pi")
    else if c == '\U{03A1}' then Some("%Rho")
    else if c == '\U{03A3}' then Some("%Sigma")
    else if c == '\U{03A4}' then Some("%Tau")
    else if c == '\U{03A5}' then Some("%Upsilon")
    else if c == '\U{03A6}' then Some("%Phi")
    else if c == '\U{03A7}' then Some("%Chi")
    else if c == '\U{03A8}' then Some("%Psi")
    else if c == '\U{03A9}' then Some("%Omega")
    else None
  }

  /** GetGreekStringUnicode: the letter for a known name, with or without '%'; the text itself otherwise. */
  function GreekUnicode(text: string): (r: string)
    ensures GreekLetter(PercentName(text)).None? ==> r == text
  {
    match GreekLetter(PercentName(text))
    case Some(c) => [c]
    case None => text
  }

  /**
   * A name with or without its percent sign gives the same letter, and a
   * text that is no Greek name comes back unchanged.
   */
  lemma GreekUnicodeNames(n: string)
    requires |n| > 0 && n[0] != '%'
    ensures GreekLetter("%" + n).Some? ==> GreekUnicode(n) == GreekUnicode("%" + n) == [GreekLetter("%" + n).value]
    ensures GreekLetter("%" + n).None? ==> GreekUnicode(n) == n && GreekUnicode("%" + n) == "%" + n
  {
    assert ("%" + n)[0] == '%';
  }

  lemma GreekLetter1Inverse(name: string)
    ensures GreekLetter1(name).Some? ==> GreekName(GreekLetter1(name).value) == Some(name)
  {
  }

  lemma GreekLetter2Inverse(name: string)
    ensures GreekLetter2(name).Some? ==> GreekName(GreekLetter2(name).value) == Some(name)
  {
  }

  lemma GreekLetter3Inverse(name: string)
    ensures GreekLetter3(name).Some? ==> GreekName(GreekLetter3(name).value) == Some(name)
  {
  }

  lemma GreekLetter4Inverse(name: string)
    ensures GreekLetter4(name).Some? ==> GreekName(GreekLetter4(name).value) == Some(name)
  {
  }

  /** Every letter of the table leads back to its name. */
  lemma GreekLetterInverse(name: string)
    ensures GreekLetter(name).Some? ==> GreekName(GreekLetter(name).value) == Some(name)
  {
    GreekLetter1Inverse(name);
    GreekLetter2Inverse(name);
    GreekLetter3Inverse(name);
    GreekLetter4Inverse(name);
  }

  /** Different names have different letters. */
  lemma GreekLetterInjective(name: string, other: string)
    requires GreekLetter(name).Some? && GreekLetter(other) == GreekLetter(name)
    ensures other == name
  {
    GreekLetterInverse(name);
    GreekLetterInverse(other);
  }

  /** The TeX-font table of Greek names. */
  function GreekTeXEntry(name: string): Option<string>
  {
    var r1 := GreekTeXEntry1(name);
    var r2 := GreekTeXEntry2(name);
    var r3 := GreekTeXEntry3(name);
    var r4 := GreekTeXEntry4(name);
    if r1.Some? then r1 else if r2.Some? then r2 else if r3.Some? then r3 else r4
  }

  /** The entries from alpha to mu. */
  function GreekTeXEntry1(name: string): Option<string>
  {
    if name == "%alpha" then Some("\U{00CB}")
    else if name == "%beta" then Some("\U{00CC}")
    else if name == "%gamma" then Some("\U{00CD}")
    else if name == "%delta" then Some("\U{00CE}")
    else if name == "%epsilon" then Some("\U{00CF}")
    else if name == "%zeta" then Some("\U{00B0}")
    else if name == "%eta" then Some("\U{00D1}")
    else if name == "%theta" then Some("\U{00D2}")
    else if name == "%iota" then Some("\U{00D3}")
    else if name == "%kappa" then Some("\U{00D4}")
    else if name == "%lambda" then Some("\U{00D5}")
    else if name == "%mu" then Some("\U{00D6}")
    else None
  }

  /** The entries from nu to omega. */
  function GreekTeXEntry2(name: string): Option<string>
  {
    if name == "%nu" then Some("\U{00B7}")
    else if name == "%xi" then Some("\U{00D8}")
    else if name == "%omicron" then Some("o")
    else if name == "%pi" then Some("\U{00D9}")
    else if name == "%rho" then Some("\U{00DA}")
    else if name == "%sigma" then Some("\U{00DB}")
    else if name == "%tau" then Some("\U{00DC}")
    else if name == "%upsilon" then Some("\U{00B5}")
    else if name == "%chi" then Some("\U{00DF}")
    else if name == "%psi" then Some("\U{00EF}")
    else if name == "%phi" then Some("'")
    else if name == "%omega" then Some("!")
    else None
  }

  /** The entries from Alpha to Mu. */
  function GreekTeXEntry3(name: string): Option<string>
  {
    if name == "%Alpha" then Some("A")
    else if name == "%Beta" then Some("B")
    else if name == "%Gamma" then Some("\U{00C0}")
    else if name == "%Delta" then Some("\U{00C1}")
    else if name == "%Epsilon" then Some("E")
    else if name == "%Zeta" then Some("Z")
    else if name == "%Eta" then Some("H")
    else if name == "%Theta" then Some("\U{00C2}")
    else if name == "%Iota" then Some("I")
    else if name == "%Kappa" then Some("K")
    else if name == "%Lambda" then Some("\U{00C3}")
    else if name == "%Mu" then Some("M")
    else None
  }

  /** The entries from Nu to Omega. */
  function GreekTeXEntry4(name: string): Option<string>
  {
    if name == "%Nu" then Some("N")
    else if name == "%Xi" then Some("\U{00C4}")
    else if name == "%Omicron" then Some("O")
    else if name == "%Pi" then Some("\U{00C5}")
    else if name == "%Rho" then Some("P")
    else if name == "%Sigma" then Some("\U{00C6}")
    else if name == "%Tau" then Some("T")
    else if name == "%Upsilon" then Some("Y")
    else if name == "%Phi" then Some("\U{00C8}")
    else if name == "%Chi" then Some("X")
    else if name == "%Psi" then Some("\U{00C9}")
    else if name == "%Omega" then Some("\U{00CA}")
    else None
  }

  /** GetGreekStringTeX: the TeX-font character for a Greek name; gamma, zeta and psi also without '%'; "" if unknown. */
  function GreekTeX(text: string): string
  {
    if text == "gamma" then "\U{00C0}"
    else if text == "zeta" then "\U{00B0}"
    else if text == "psi" then "\U{00C9}"
    else match GreekTeXEntry(PercentName(text))
      case Some(g) => g
      case None => ""
  }

  lemma GreekTablesAgree1(name: string)
    ensures GreekLetter1(name).Some? <==> GreekTeXEntry1(name).Some?
    ensures GreekTeXEntry1(name).Some? ==> |GreekTeXEntry1(name).value| == 1
  {
  }

  lemma GreekTablesAgree2(name: string)
    ensures GreekLetter2(name).Some? <==> GreekTeXEntry2(name).Some?
    ensures GreekTeXEntry2(name).Some? ==> |GreekTeXEntry2(name).value| == 1
  {
  }

  lemma GreekTablesAgree3(name: string)
    ensures GreekLetter3(name).Some? <==> GreekTeXEntry3(name).Some?
    ensures GreekTeXEntry3(name).Some? ==> |GreekTeXEntry3(name).value| == 1
  {
  }

  lemma GreekTablesAgree4(name: string)
    ensures GreekLetter4(name).Some? <==> GreekTeXEntry4(name).Some?
    ensures GreekTeXEntry4(name).Some? ==> |GreekTeXEntry4(name).value| == 1
  {
  }

  /** The two Greek tables know the same names, and no entry is empty. */
  lemma GreekTablesAgree(name: string)
    ensures GreekLetter(name).Some? <==> GreekTeXEntry(name).Some?
    ensures GreekTeXEntry(name).Some? ==> |GreekTeXEntry(name).value| == 1
  {
    GreekTablesAgree1(name);
    GreekTablesAgree2(name);
    GreekTablesAgree3(name);
    GreekTablesAgree4(name);
  }

  /**
   * The return table of Greek constants, with the macros the two Xi entries
   * return as parameters. The table is one chain of tests in the source; it
   * is cut here into four runs of twelve, tried in order.
   */
  function GreekConstantTeXWith(text: string, xi: string, capitalXi: string): Option<string>
  {
    var r1 := GreekSmallTeX1(text);
    var r2 := GreekSmallTeX2(text, xi);
    var r3 := GreekCapitalTeX1(text);
    var r4 := GreekCapitalTeX2(text, capitalXi);
    if r1.Some? then r1 else if r2.Some? then r2 else if r3.Some? then r3 else r4
  }

  /** The entries from alpha to mu. */
  function GreekSmallTeX1(text: string): Option<string>
  {
    if text == "\\% alpha" then Some("\\alpha ")
    else if text == "\\% beta" then Some("\\beta ")
    else if text == "\\% gamma" then Some("\\gamma ")
    else if text == "\\% delta" then Some("\\delta ")
    else if text == "\\% epsilon" then Some("\\epsilon ")
    else if text == "\\% zeta" then Some("\\zeta ")
    else if text == "\\% eta" then Some("\\eta ")
    else if text == "\\% theta" then Some("\\theta ")
    else if text == "\\% iota" then Some("\\iota ")
    else if text == "\\% kappa" then Some("\\kappa ")
    else if text == "\\% lambda" then Some("\\lambda ")
    else if text == "\\% mu" then Some("\\mu ")
    else None
  }

  /** The entries from nu to omega. */
  function GreekSmallTeX2(text: string, xi: string): Option<string>
  {
    if text == "\\% nu" then Some("\\nu ")
    else if text == "\\% xi" then Some(xi)
    else if text == "\\% omicron" then Some("\\omicron ")
    else if text == "\\% pi" then Some("\\pi ")
    else if text == "\\% rho" then Some("\\rho ")
    else if text == "\\% sigma" then Some("\\sigma ")
    else if text == "\\% tau" then Some("\\tau ")
    else if text == "\\% upsilon" then Some("\\upsilon ")
    else if text == "\\% phi" then Some("\\phi ")
    else if text == "\\% chi" then Some("\\chi ")
    else if text == "\\% psi" then Some("\\psi ")
    else if text == "\\% omega" then Some("\\omega ")
    else None
  }

  /** The entries from Alpha to Mu. */
  function GreekCapitalTeX1(text: string): Option<string>
  {
    if text == "\\% Alpha" then Some("A")
    else if text == "\\% Beta" then Some("B")
    else if text == "\\% Gamma" then Some("\\Gamma ")
    else if text == "\\% Delta" then Some("\\Delta ")
    else if text == "\\% Epsilon" then Some("\\Epsilon ")
    else if text == "\\% Zeta" then Some("\\Zeta ")
    else if text == "\\% Eta" then Some("\\Eta ")
    else if text == "\\% Theta" then Some("\\Theta ")
    else if text == "\\% Iota" then Some("\\Iota ")
    else if text == "\\% Kappa" then Some("\\Kappa ")
    else if text == "\\% Lambda" then Some("\\Lambda ")
    else if text == "\\% Mu" then Some("\\Mu ")
    else None
  }

  /** The entries from Nu to Omega. */
  function GreekCapitalTeX2(text: string, capitalXi: string): Option<string>
  {
    if text == "\\% Nu" then Some("\\Nu ")
    else if text == "\\% Xi" then Some(capitalXi)
    else if text == "\\% Omicron" then Some("\\Omicron ")
    else if text == "\\% Pi" then Some("\\Pi ")
    else if text == "\\% Rho" then Some("\\Rho ")
    else if text == "\\% Sigma" then Some("\\Sigma ")
    else if text == "\\% Tau" then Some("\\Tau ")
    else if text == "\\% Upsilon" then Some("\\Upsilon ")
    else if text == "\\% Phi" then Some("\\Phi ")
    else if text == "\\% Chi" then Some("\\Chi ")
    else if text == "\\% Psi" then Some("\\Psi ")
    else if text == "\\% Omega" then Some("\\Omega ")
    else None
  }

  /** As written: both Xi entries return "\ui ". */
  function GreekConstantTeXAsWritten(text: string): Option<string>
  {
    GreekConstantTeXWith(text, "\\ui ", "\\ui ")
  }

  /** With \xi and \Xi for the two Xi entries. */
  function GreekConstantTeX(text: string): Option<string>
  {
    GreekConstantTeXWith(text, "\\xi ", "\\Xi ")
  }

  /** As written, small and capital xi come out as the same undefined macro. */
  lemma GreekXiAsWritten()
    ensures GreekConstantTeXAsWritten("\\% xi") == GreekConstantTeXAsWritten("\\% Xi") == Some("\\ui ")
  {
  }

  /** The entries from alpha to mu never give a xi macro. */
  lemma GreekSmallTeX1NoXi(text: string)
    ensures GreekSmallTeX1(text) !in {Some("\\xi "), Some("\\Xi "), Some("\\ui ")}
  {
  }

  /** Among the entries from nu to omega, only xi gives the macro for xi. */
  lemma GreekSmallTeX2Xi(text: string)
    ensures GreekSmallTeX2(text, "\\xi ") == Some("\\xi ") <==> text == "\\% xi"
    ensures GreekSmallTeX2(text, "\\xi ") !in {Some("\\Xi "), Some("\\ui ")}
  {
  }

  /** The entries from Alpha to Mu never give a xi macro. */
  lemma GreekCapitalTeX1NoXi(text: string)
    ensures GreekCapitalTeX1(text) !in {Some("\\xi "), Some("\\Xi "), Some("\\ui ")}
  {
  }

  /** Among the entries from Nu to Omega, only Xi gives the macro for Xi. */
  lemma GreekCapitalTeX2Xi(text: string)
    ensures GreekCapitalTeX2(text, "\\Xi ") == Some("\\Xi ") <==> text == "\\% Xi"
    ensures GreekCapitalTeX2(text, "\\Xi ") !in {Some("\\xi "), Some("\\ui ")}
  {
  }

  /**
   * Corrected, small and capital xi each have a macro of their own that no
   * other constant shares, and the undefined macro is gone.
   */
  lemma GreekConstantTeXXi(text: string)
    ensures GreekConstantTeX(text) == Some("\\xi ") <==> text == "\\% xi"
    ensures GreekConstantTeX(text) == Some("\\Xi ") <==> text == "\\% Xi"
    ensures GreekConstantTeX(text) != Some("\\ui ")
  {
    GreekSmallTeX1NoXi(text);
    GreekSmallTeX2Xi(text);
    GreekCapitalTeX1NoXi(text);
    GreekCapitalTeX2Xi(text);
  }
}
