/**
 The "Add a MIT license file? [Y/n]" decision of the `modulemaker:make` command.

 The question is only asked when an author name was given; the answer is read
 from standard input and trimmed, and the license file is added when its
 lower-cased form is empty, `y` or `yes`. The reading itself is I/O and is
 replaced by the `answer` parameter.
 */
module LicensePrompt {
  import opened PhpString

  /** The answers the `switch` accepts, after `strtolower`. */
  predicate IsAcceptedLowered(a: string)
  {
    a == "" || a == "y" || a == "yes"
  }

  /** The license flag: no author means no question and no license; otherwise the answer decides. */
  function LicenseFlag(author: string, answer: string): (flag: bool)
    ensures flag ==> author != ""
  {
    if author == "" then false
    else IsAcceptedLowered(Lower(Trim(answer)))
  }

  /** A case-insensitive reading of the accepted answers, stated on the trimmed answer itself. */
  predicate IsYes(t: string)
  {
    || t == ""
    || (|t| == 1 && (t[0] == 'y' || t[0] == 'Y'))
    || (|t| == 3 && (t[0] == 'y' || t[0] == 'Y') && (t[1] == 'e' || t[1] == 'E') && (t[2] == 's' || t[2] == 'S'))
  }

  lemma {:induction false} ToLowerIs(c: char, small: char, capital: char)
    requires IsAsciiLower(small) && capital as int == small as int - 32
    ensures ToLower(c) == small <==> c == small || c == capital
  {
  }

  /**
   The flag is set exactly when an author is given and the trimmed answer is
   empty or, ignoring case, `y` or `yes`; any other answer (`n`, `no`, `yess`,
   `ye`, ...) leaves it unset.
   */
  lemma {:induction false} LicenseFlagIff(author: string, answer: string)
    ensures LicenseFlag(author, answer) <==> author != "" && IsYes(Trim(answer))
  {
    var t := Trim(answer);
    var l := Lower(t);
    ToLowerIs(if |t| > 0 then t[0] else 'y', 'y', 'Y');
    ToLowerIs(if |t| > 1 then t[1] else 'e', 'e', 'E');
    ToLowerIs(if |t| > 2 then t[2] else 's', 's', 'S');
    if |t| == 1 {
      assert l == "y" <==> l[0] == 'y';
    } else if |t| == 3 {
      assert l == "yes" <==> l[0] == 'y' && l[1] == 'e' && l[2] == 's';
    }
  }

  /** Pressing Enter, possibly after blanks, accepts the default and adds the license. */
  lemma {:induction false} BlankAnswerAccepts(author: string, answer: string)
    requires author != ""
    requires forall i :: 0 <= i < |answer| ==> IsTrimmable(answer[i])
    ensures LicenseFlag(author, answer)
  {
    TrimKeepsInfix(answer);
    LicenseFlagIff(author, answer);
  }
}
