/** The password strength meter: five independent checks, the level (how many pass), its label and
    text colour, and the colour of each of the five bars. */
module PasswordStrength {
  import Text

  predicate IsSpecial(c: char) { !Text.IsAsciiAlnum(c) }

  function B2I(b: bool): nat { if b then 1 else 0 }

  /** `checks.filter(Boolean).length` over: length at least 6, an upper-case letter, a lower-case
      letter, a digit, and a character that is not an ASCII letter or digit. */
  function Level(pw: string): (n: nat)
    ensures n <= 5
  {
    B2I(Text.Utf16Length(pw) >= 6) + B2I(Text.Has(pw, Text.IsUpper)) + B2I(Text.Has(pw, Text.IsLower))
    + B2I(Text.Has(pw, Text.IsDigit)) + B2I(Text.Has(pw, IsSpecial))
  }

  lemma HasAppend(a: string, b: string, inClass: char -> bool)
    ensures Text.Has(a, inClass) ==> Text.Has(a + b, inClass)
  {
    if Text.Has(a, inClass) {
      var i :| 0 <= i < |a| && inClass(a[i]);
      assert (a + b)[i] == a[i];
    }
  }

  /** Typing more never lowers the level: every check stays passed once passed. */
  lemma LevelMonotone(a: string, b: string)
    ensures Level(a) <= Level(a + b)
  {
    Text.Utf16LengthAppend(a, b);
    HasAppend(a, b, Text.IsUpper);
    HasAppend(a, b, Text.IsLower);
    HasAppend(a, b, Text.IsDigit);
    HasAppend(a, b, IsSpecial);
  }

  /** The level reaches 5 exactly when all five checks pass. */
  lemma LevelFive(pw: string)
    ensures Level(pw) == 5 <==>
      Text.Utf16Length(pw) >= 6 && Text.Has(pw, Text.IsUpper) && Text.Has(pw, Text.IsLower)
      && Text.Has(pw, Text.IsDigit) && Text.Has(pw, IsSpecial)
  {
  }

  function Label(level: nat): (r: string)
    requires level <= 5
    ensures level == 0 <==> r == "Very Weak"
    ensures 1 <= level <= 2 <==> r == "Weak"
    ensures level == 3 <==> r == "Moderate"
    ensures level == 4 <==> r == "Strong"
    ensures level == 5 <==> r == "Very Strong"
  {
    if level == 0 then "Very Weak"
    else if level <= 2 then "Weak"
    else if level == 3 then "Moderate"
    else if level == 4 then "Strong"
    else "Very Strong"
  }

  /** The class of the label text. */
  function LabelColor(level: nat): (r: string)
    ensures level <= 2 <==> r == "text-red-500"
    ensures level == 3 <==> r == "text-yellow-500"
    ensures level == 4 <==> r == "text-green-500"
    ensures level >= 5 <==> r == "text-green-600"
  {
    if level <= 2 then "text-red-500"
    else if level == 3 then "text-yellow-500"
    else if level == 4 then "text-green-500"
    else "text-green-600"
  }

  const Grey := "bg-gray-200"
  const Red := "bg-red-500"
  const Yellow := "bg-yellow-400"
  const Teal := "bg-[#288683]"

  /** `getBarColor(index)` at the given level. */
  function BarColor(level: nat, index: nat): (r: string)
    ensures level == 5 ==> r == Teal
    ensures level != 5 ==> (r == Grey <==> index >= level)
    ensures level != 5 && index < level ==>
      r == (if index == 0 then Red else if index <= 2 then Yellow else Teal)
  {
    if level == 5 then Teal
    else if index < level then
      if index < 1 then Red
      else if index == 1 then Yellow
      else if index == 2 then Yellow
      else Teal
    else Grey
  }

  /** How many of the bars `0 .. n-1` are coloured. */
  function ColouredBars(level: nat, n: nat): nat {
    if n == 0 then 0 else ColouredBars(level, n - 1) + B2I(BarColor(level, n - 1) != Grey)
  }

  /** Of the five bars, exactly `level` are coloured. */
  lemma {:induction false} ColouredBarsCount(level: nat, n: nat)
    requires level <= 5 && n <= 5
    ensures ColouredBars(level, n) == if level == 5 then n else if n <= level then n else level
  {
    if n > 0 {
      ColouredBarsCount(level, n - 1);
    }
  }

  lemma ColouredBarsIsLevel(pw: string)
    ensures ColouredBars(Level(pw), 5) == Level(pw)
  {
    ColouredBarsCount(Level(pw), 5);
  }
}
