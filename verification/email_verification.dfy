/** The six-box one-time-code form of the email verification page: typing a digit, pasting a code,
    backspace navigation, completeness and the submitted code. */
module EmailVerification {
  import Text

  const Boxes := 6

  /** `/^[0-9]?$/`: empty, or exactly one digit. */
  predicate IsBoxValue(v: string) {
    v == [] || (|v| == 1 && Text.IsDigit(v[0]))
  }

  /** `/^\d{6}$/`: exactly six digits. */
  predicate IsSixDigits(s: string) {
    |s| == 6 && forall i :: 0 <= i < |s| ==> Text.IsDigit(s[i])
  }

  /** `otp.join("")`. */
  function Join(boxes: seq<string>): string {
    if boxes == [] then [] else boxes[0] + Join(boxes[1..])
  }

  /** `otp.every(digit => digit !== "")`. */
  predicate IsComplete(boxes: seq<string>) {
    forall i :: 0 <= i < |boxes| ==> boxes[i] != []
  }

  /** With every box a digit, the code is the boxes' digits in order. */
  lemma {:induction false} JoinDigits(boxes: seq<string>)
    requires forall i :: 0 <= i < |boxes| ==> IsBoxValue(boxes[i]) && boxes[i] != []
    ensures |Join(boxes)| == |boxes|
    ensures forall i :: 0 <= i < |boxes| ==> Join(boxes)[i] == boxes[i][0]
  {
    if boxes != [] {
      JoinDigits(boxes[1..]);
    }
  }

  /** A complete form submits a six-digit code. */
  lemma CompleteCodeIsSixDigits(boxes: seq<string>)
    requires |boxes| == Boxes && IsComplete(boxes)
    requires forall i :: 0 <= i < |boxes| ==> IsBoxValue(boxes[i])
    ensures IsSixDigits(Join(boxes))
  {
    JoinDigits(boxes);
  }

  /** The boxes a pasted code fills (`paste.split("")`). */
  function Split(s: string): (r: seq<string>)
    ensures |r| == |s| && forall i :: 0 <= i < |s| ==> r[i] == [s[i]]
  {
    seq(|s|, i requires 0 <= i < |s| => [s[i]])
  }

  /** Pasting a code and submitting sends the code back. */
  lemma PasteRoundTrip(s: string)
    requires IsSixDigits(s)
    ensures IsComplete(Split(s)) && Join(Split(s)) == s
  {
    JoinDigits(Split(s));
  }

  class OtpForm {
    var boxes: seq<string>
    var focused: nat

    ghost predicate Valid()
      reads this
    {
      |boxes| == Boxes && focused < Boxes && forall i :: 0 <= i < |boxes| ==> IsBoxValue(boxes[i])
    }

    constructor ()
      ensures Valid() && boxes == ["", "", "", "", "", ""] && focused == 0
    {
      boxes, focused := ["", "", "", "", "", ""], 0;
    }

    /** `handleChange(value, index)`: a value other than empty or one digit changes nothing;
        otherwise only box `index` takes it, and focus moves on when a digit was typed before the
        last box. */
    method HandleChange(value: string, index: nat)
      requires Valid() && index < Boxes
      modifies this
      ensures Valid()
      ensures !IsBoxValue(value) ==> boxes == old(boxes) && focused == old(focused)
      ensures IsBoxValue(value) ==> boxes == old(boxes)[index := value]
      ensures IsBoxValue(value) && value != [] && index < Boxes - 1 ==> focused == index + 1
      ensures !(IsBoxValue(value) && value != [] && index < Boxes - 1) ==> focused == old(focused)
    {
      if !IsBoxValue(value) {
        return;
      }
      boxes := boxes[index := value];
      if value != [] && index < Boxes - 1 {
        focused := index + 1;
      }
    }

    /** `handlePaste`: the trimmed clipboard text fills all boxes when it is exactly six digits,
        and focus goes to the last box; anything else changes nothing. */
    method HandlePaste(text: string)
      requires Valid()
      modifies this
      ensures Valid()
      ensures IsSixDigits(Text.Trim(text)) ==>
        boxes == Split(Text.Trim(text)) && IsComplete(boxes) && Join(boxes) == Text.Trim(text)
        && focused == Boxes - 1
      ensures !IsSixDigits(Text.Trim(text)) ==> boxes == old(boxes) && focused == old(focused)
    {
      var paste := Text.Trim(text);
      if !IsSixDigits(paste) {
        return;
      }
      PasteRoundTrip(paste);
      boxes := Split(paste);
      focused := Boxes - 1;
    }

    /** `handleKeyDown`: Backspace on an empty box after the first moves focus back one box. */
    method HandleKeyDown(key: string, index: nat)
      requires Valid() && index < Boxes
      modifies this`focused
      ensures Valid()
      ensures key == "Backspace" && boxes[index] == [] && index > 0 ==> focused == index - 1
      ensures !(key == "Backspace" && boxes[index] == [] && index > 0) ==> focused == old(focused)
    {
      if key == "Backspace" && boxes[index] == [] && index > 0 {
        focused := index - 1;
      }
    }

    /** The code `handleSubmit` sends. */
    function Code(): string
      reads this
    {
      Join(boxes)
    }
  }
}
