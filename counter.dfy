/** The display branch of the counter animation in js/main.js
    (`animateCounters`): which of the three text formats a frame writes.
    Only the choice and the integer formats are modelled; the eased value
    and the `toFixed(1)` percentage are floating point. */
module Counter {
  import opened Wrappers
  import NumberFormat

  datatype Branch = Monetary | Percent | Plain

  /** Monetary when the element's text already holds `$`, else percent when
      the `data-suffix` attribute (absent reads as `''`) is `%`, else plain. */
  function ChooseBranch(text: string, suffix: Option<string>): (b: Branch)
    ensures b == Monetary <==> '$' in text
    ensures b == Percent <==> '$' !in text && suffix == Some("%")
    ensures b == Plain <==> '$' !in text && suffix != Some("%")
  {
    var isMonetary := '$' in text;
    var suffixText := suffix.GetOr("");
    if isMonetary then Monetary
    else if suffixText == "%" then Percent
    else Plain
  }

  /** The text of a monetary or plain frame for the floored value n. */
  function IntegerText(b: Branch, n: nat): (t: string)
    requires b != Percent
    ensures b == Monetary ==> |t| >= 2 && t[0] == '$' && NumberFormat.RemoveSeparators(t[1..]) == NumberFormat.Digits(n)
    ensures b == Plain ==> NumberFormat.RemoveSeparators(t) == NumberFormat.Digits(n)
    ensures b == Monetary ==> t == "$" + NumberFormat.FormatNumber(n)
    ensures b == Plain ==> t == NumberFormat.FormatNumber(n)
  {
    var formatted := NumberFormat.FormatNumber(n);
    if b == Monetary then "$" + formatted else formatted
  }

  /** The last frame of a plain counter with target 1234 reads `1,234`. */
  lemma PlainFinalFrame()
    ensures IntegerText(ChooseBranch("0", None), 1234) == "1,234"
  {
    NumberFormat.FormatNumberExample();
  }
}
