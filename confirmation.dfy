/**
 * The JavaScript confirmation value an anchor can carry in one of its event
 * attributes (src/Confirmation.php). It holds one message, fixed when it is
 * made, and stringifies to `return confirm('<message>');` with the message
 * inserted verbatim: no quote is escaped.
 */
module Confirmations {
  import opened Options

  /** The fixed text before the message. */
  const Prefix: string := "return confirm('"

  /** The fixed text after the message. */
  const Suffix: string := "');"

  datatype Confirmation = Confirmation(message: string) {

    /** `__toString()`, that is `createConfirmation($this->message)`: the
        prefix, then every character of the message at offset 16 on, then
        the suffix. */
    function ToString(): (r: string)
      ensures |r| == |message| + 19
      ensures r[..16] == Prefix && r[|r| - 3..] == Suffix
      ensures forall i :: 0 <= i < |message| ==> r[16 + i] == message[i]
    {
      Prefix + message + Suffix
    }
  }

  /** Recovers the message from a string by stripping the fixed prefix and
      suffix; None when the string does not have that shape. */
  function ParseConfirmation(s: string): (r: Option<string>)
    ensures r.Some? <==> |s| >= 19 && s[..16] == Prefix && s[|s| - 3..] == Suffix
    ensures r.Some? ==> |r.value| == |s| - 19
  {
    if |s| >= 19 && s[..16] == Prefix && s[|s| - 3..] == Suffix then Some(s[16..|s| - 3]) else None
  }

  /** Stripping prefix and suffix gives the message back, whatever it holds. */
  lemma ParseToString(c: Confirmation)
    ensures ParseConfirmation(c.ToString()) == Some(c.message)
  {
    var s := c.ToString();
    assert s[16..|s| - 3] == c.message;
  }

  /** Every string of the confirmation shape is the string of exactly the
      message found between prefix and suffix. */
  lemma ToStringParse(s: string)
    requires ParseConfirmation(s).Some?
    ensures Confirmation(ParseConfirmation(s).value).ToString() == s
  {
    var m := s[16..|s| - 3];
    assert s == s[..16] + m + s[|s| - 3..];
  }

  /** Distinct messages give distinct strings. */
  lemma ToStringInjective(c: Confirmation, d: Confirmation)
    requires c.ToString() == d.ToString()
    ensures c == d
  {
    ParseToString(c);
    ParseToString(d);
  }

  /** The confirmation the example script attaches to its link. */
  lemma ExampleConfirmation()
    ensures Confirmation("aaa").ToString() == "return confirm('aaa');"
  {
  }

  /** An embedded single quote passes through unescaped, so the script text
      closes the string literal early; the caller has to avoid it. */
  lemma QuotePassesThrough()
    ensures Confirmation("it's").ToString() == "return confirm('it's');"
  {
  }
}
