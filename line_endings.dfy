/**
 * LineEndingHandler.normalize_content on decoded text: what a file's text
 * becomes before hashing under each line-ending strategy.
 */
module LineEndings {
  import opened Text

  /** The strategy names the handler knows; any other name leaves line endings alone. */
  datatype Strategy = Preserve | Unix | Auto | Windows | Other(name: string)

  /** Every "\n" written as "\r\n". */
  function Crlf(s: string): string
  {
    Replace(s, "\n", "\r\n")
  }

  /**
   * normalize_content: `preserve` and unknown strategies keep the text;
   * `unix` and `auto` turn "\r\n" and lone "\r" into "\n"; `windows` does the
   * same and then turns every "\n" into "\r\n".
   */
  function NormalizeContent(strategy: Strategy, text: string): (r: string)
    ensures (strategy.Unix? || strategy.Auto?) ==> '\r' !in r
    ensures (strategy.Preserve? || strategy.Other?) ==> r == text
  {
    match strategy
    case Unix => UniversalNewlines(text)
    case Auto => UniversalNewlines(text)
    case Windows => Crlf(UniversalNewlines(text))
    case _ => text
  }

  lemma CrlfStep(c: char, s: string)
    ensures c == '\n' ==> Crlf([c] + s) == "\r\n" + Crlf(s)
    ensures c != '\n' ==> Crlf([c] + s) == [c] + Crlf(s)
  {
    var t := [c] + s;
    assert t[..1] == [c];
    assert t[1..] == s;
  }

  lemma CrLfRead(s: string)
    ensures UniversalNewlines("\r\n" + s) == "\n" + UniversalNewlines(s)
  {
    var t := "\r\n" + s;
    assert t[..2] == "\r\n" && t[2..] == s;
    var once := Replace(s, "\r\n", "\n");
    assert Replace(t, "\r\n", "\n") == "\n" + once;
    ReplacePrefix("\n", once, "\r", "\n");
  }

  /** Reading back text written with "\r\n" line ends gives the text with "\n" line ends. */
  lemma {:induction false} CrlfReadBack(s: string)
    requires '\r' !in s
    ensures UniversalNewlines(Crlf(s)) == s
    decreases |s|
  {
    if s != [] {
      var c := s[0];
      assert s == [c] + s[1..];
      CrlfStep(c, s[1..]);
      CrlfReadBack(s[1..]);
      if c == '\n' {
        CrLfRead(Crlf(s[1..]));
      } else {
        UniversalNewlinesPrefix([c], Crlf(s[1..]));
      }
    }
  }

  /** Normalising twice is normalising once, under every strategy. */
  lemma NormalizeIdempotent(strategy: Strategy, text: string)
    ensures NormalizeContent(strategy, NormalizeContent(strategy, text)) == NormalizeContent(strategy, text)
  {
    var u := UniversalNewlines(text);
    UniversalNewlinesWithoutCr(u);
    if strategy.Windows? {
      CrlfReadBack(u);
    }
  }

  /** Text normalised for Windows and then for Unix is the text normalised for Unix directly. */
  lemma UnixAfterWindows(text: string)
    ensures NormalizeContent(Unix, NormalizeContent(Windows, text)) == NormalizeContent(Unix, text)
  {
    CrlfReadBack(UniversalNewlines(text));
  }
}
