/** The two ends of the `imagePaths` field of a post update: the edit page sends
    `JSON.stringify(existingImages)` and the server reads it back with `JSON.parse`. Only arrays of
    strings are modelled, which is all the edit page ever sends. */
module Json {
  import opened Wrappers

  // ---- JSON.stringify of an array of strings ----

  function HexDigitLower(d: nat): char
    requires d < 16
  {
    if d < 10 then ('0' as int + d) as char else ('a' as int + d - 10) as char
  }

  /** How `JSON.stringify` writes one character inside a string literal. */
  function EscapeChar(c: char): string {
    if c == '"' then ['\\', '"']
    else if c == '\\' then ['\\', '\\']
    else if c == '\U{8}' then ['\\', 'b']
    else if c == '\U{C}' then ['\\', 'f']
    else if c == '\n' then ['\\', 'n']
    else if c == '\r' then ['\\', 'r']
    else if c == '\t' then ['\\', 't']
    else if (c as int) < 0x20 then
      ['\\', 'u', '0', '0', HexDigitLower(c as int / 16), HexDigitLower(c as int % 16)]
    else [c]
  }

  function Escape(s: string): string {
    if s == [] then [] else EscapeChar(s[0]) + Escape(s[1..])
  }

  function Quote(s: string): string {
    ['"'] + Escape(s) + ['"']
  }

  function Elements(xs: seq<string>): string {
    if xs == [] then []
    else if |xs| == 1 then Quote(xs[0])
    else Quote(xs[0]) + [','] + Elements(xs[1..])
  }

  /** `JSON.stringify(xs)` for an array of strings: no white space, elements separated by commas. */
  function Stringify(xs: seq<string>): string {
    ['['] + Elements(xs) + [']']
  }

  // ---- JSON.parse, restricted to arrays of strings ----

  /** The four JSON white-space characters. */
  predicate IsJsonSpace(c: char) {
    c == ' ' || c == '\t' || c == '\n' || c == '\r'
  }

  function SkipSpace(s: string): (r: string)
    ensures |r| <= |s|
    ensures r == [] || !IsJsonSpace(r[0])
  {
    if s != [] && IsJsonSpace(s[0]) then SkipSpace(s[1..]) else s
  }

  function HexValue(c: char): Option<nat> {
    if '0' <= c <= '9' then Some(c as int - '0' as int)
    else if 'a' <= c <= 'f' then Some(c as int - 'a' as int + 10)
    else if 'A' <= c <= 'F' then Some(c as int - 'A' as int + 10)
    else None
  }

  /** Four hexadecimal digits at the front of `s`, as a code unit. */
  function Hex4(s: string): (r: Option<nat>)
    ensures r.Some? ==> |s| >= 4 && r.value < 0x10000
  {
    if |s| < 4 then None
    else match (HexValue(s[0]), HexValue(s[1]), HexValue(s[2]), HexValue(s[3]))
      case (Some(a), Some(b), Some(c), Some(d)) =>
        if a < 16 && b < 16 && c < 16 && d < 16 then Some(((a * 16 + b) * 16 + c) * 16 + d) else None
      case _ => None
  }

  predicate IsHighSurrogate(u: nat) { 0xD800 <= u <= 0xDBFF }
  predicate IsLowSurrogate(u: nat) { 0xDC00 <= u <= 0xDFFF }

  /** The escape sequence after a backslash: the character it stands for and what follows it. A
      `\u` escape of a surrogate must be a high-low pair, which stands for one character. */
  function DecodeEscape(s: string): (r: Option<(char, string)>)
    ensures r.Some? ==> |r.value.1| < |s|
  {
    if s == [] then None
    else if s[0] == '"' then Some(('"', s[1..]))
    else if s[0] == '\\' then Some(('\\', s[1..]))
    else if s[0] == '/' then Some(('/', s[1..]))
    else if s[0] == 'b' then Some(('\U{8}', s[1..]))
    else if s[0] == 'f' then Some(('\U{C}', s[1..]))
    else if s[0] == 'n' then Some(('\n', s[1..]))
    else if s[0] == 'r' then Some(('\r', s[1..]))
    else if s[0] == 't' then Some(('\t', s[1..]))
    else if s[0] == 'u' then
      match Hex4(s[1..])
      case None => None
      case Some(u) =>
        if IsLowSurrogate(u) then None
        else if !IsHighSurrogate(u) then Some((u as char, s[5..]))
        else if |s| >= 7 && s[5] == '\\' && s[6] == 'u' then
          match Hex4(s[7..])
          case None => None
          case Some(low) =>
            if IsLowSurrogate(low) then
              Some(((0x10000 + (u - 0xD800) * 0x400 + (low - 0xDC00)) as char, s[11..]))
            else None
        else None
    else None
  }

  /** The rest of a string literal after its opening quote: its value and what follows the
      closing quote. */
  function ParseStringBody(s: string): (r: Option<(string, string)>)
    ensures r.Some? ==> |r.value.1| < |s|
    decreases |s|
  {
    if s == [] then None
    else if s[0] == '"' then Some(([], s[1..]))
    else if s[0] == '\\' then
      match DecodeEscape(s[1..])
      case None => None
      case Some((c, rest)) =>
        match ParseStringBody(rest)
        case None => None
        case Some((t, after)) => Some(([c] + t, after))
    else if (s[0] as int) < 0x20 then None
    else
      match ParseStringBody(s[1..])
      case None => None
      case Some((t, after)) => Some(([s[0]] + t, after))
  }

  /** The elements of an array from its first element on, and what follows the closing bracket. */
  function ParseElements(s: string): (r: Option<(seq<string>, string)>)
    ensures r.Some? ==> |r.value.1| < |s|
    decreases |s|
  {
    var s1 := SkipSpace(s);
    if s1 == [] || s1[0] != '"' then None
    else
      match ParseStringBody(s1[1..])
      case None => None
      case Some((x, rest)) =>
        var s2 := SkipSpace(rest);
        if s2 == [] then None
        else if s2[0] == ']' then Some(([x], s2[1..]))
        else if s2[0] == ',' then
          match ParseElements(s2[1..])
          case None => None
          case Some((xs, after)) => Some(([x] + xs, after))
        else None
  }

  /** `JSON.parse(text)` where the text must hold one array of strings and nothing else. */
  function ParseStringArray(text: string): Option<seq<string>> {
    var s := SkipSpace(text);
    if s == [] || s[0] != '[' then None
    else
      var s1 := SkipSpace(s[1..]);
      var parsed: Option<(seq<string>, string)> :=
        if s1 != [] && s1[0] == ']' then Some(([], s1[1..])) else ParseElements(s1);
      match parsed
      case None => None
      case Some((xs, rest)) => if SkipSpace(rest) == [] then Some(xs) else None
  }

  // ---- the round trip ----

  lemma HexDigitLowerValue(d: nat)
    requires d < 16
    ensures HexValue(HexDigitLower(d)) == Some(d)
  {
  }

  /** A control character without a short escape is written `\u00XY` and read back. */
  lemma DecodeControl(c: char, t: string)
    requires (c as int) < 0x20 && c != '\U{8}' && c != '\U{C}' && c != '\n' && c != '\r' && c != '\t'
    ensures DecodeEscape(EscapeChar(c)[1..] + t) == Some((c, t))
  {
    var hi, lo := c as int / 16, c as int % 16;
    HexDigitLowerValue(hi);
    HexDigitLowerValue(lo);
    var s := EscapeChar(c)[1..] + t;
    assert s == ['u', '0', '0', HexDigitLower(hi), HexDigitLower(lo)] + t;
    assert Hex4(s[1..]) == Some(c as int);
    assert s[5..] == t;
  }

  /** A character with a two-character escape is read back from its second character. */
  lemma DecodeShort(c: char, t: string)
    requires |EscapeChar(c)| == 2
    ensures DecodeEscape(EscapeChar(c)[1..] + t) == Some((c, t))
  {
    assert (EscapeChar(c)[1..] + t)[1..] == t;
  }

  /** Reading back one written character. */
  lemma DecodeEscapeChar(c: char, t: string)
    ensures ParseStringBody(EscapeChar(c) + t) ==
      match ParseStringBody(t)
      case None => None
      case Some((x, after)) => Some(([c] + x, after))
  {
    var e := EscapeChar(c);
    if |e| == 1 {
      assert (e + t)[1..] == t;
    } else {
      assert (e + t)[1..] == e[1..] + t;
      if |e| == 2 {
        DecodeShort(c, t);
      } else {
        DecodeControl(c, t);
      }
    }
  }

  /** Reading back a written string body, closing quote included. */
  lemma {:induction false} ParseEscaped(x: string, t: string)
    ensures ParseStringBody(Escape(x) + ['"'] + t) == Some((x, t))
    decreases |x|
  {
    if x == [] {
      assert Escape(x) + ['"'] + t == ['"'] + t;
    } else {
      assert Escape(x) + ['"'] + t == EscapeChar(x[0]) + (Escape(x[1..]) + ['"'] + t);
      DecodeEscapeChar(x[0], Escape(x[1..]) + ['"'] + t);
      ParseEscaped(x[1..], t);
      assert [x[0]] + x[1..] == x;
    }
  }

  function Prepend(x: string, r: Option<(seq<string>, string)>): Option<(seq<string>, string)> {
    match r
    case None => None
    case Some((xs, after)) => Some(([x] + xs, after))
  }

  /** One step of `ParseElements` on an element followed directly by `]` or `,`. */
  lemma ParseElementsStep(s: string, x: string, rest: string)
    requires s != [] && s[0] == '"' && ParseStringBody(s[1..]) == Some((x, rest))
    requires rest != [] && (rest[0] == ']' || rest[0] == ',')
    ensures rest[0] == ']' ==> ParseElements(s) == Some(([x], rest[1..]))
    ensures rest[0] == ',' ==> ParseElements(s) == Prepend(x, ParseElements(rest[1..]))
  {
    assert SkipSpace(s) == s;
    assert SkipSpace(rest) == rest;
  }

  /** A single written element, the closing bracket and the rest: the element's quoted text, then
      `]`. */
  lemma ElementsSplitOne(xs: seq<string>, t: string)
    requires |xs| == 1
    ensures Elements(xs) + [']'] + t == ['"'] + (Escape(xs[0]) + ['"'] + ([']'] + t))
  {
    var q, e, b := ['"'], Escape(xs[0]), [']'];
    assert Elements(xs) == q + e + q;
    Assoc(q + e + q, b, t);
    Assoc(q + e, q, b + t);
    Assoc(q, e, q + (b + t));
  }

  /** Several written elements, the closing bracket and the rest: the first element's quoted
      text, a comma, then the remaining elements. */
  lemma ElementsSplitMore(xs: seq<string>, t: string)
    requires |xs| > 1
    ensures Elements(xs) + [']'] + t == ['"'] + (Escape(xs[0]) + ['"'] + ([','] + (Elements(xs[1..]) + [']'] + t)))
  {
    var q, e, b, c, rest := ['"'], Escape(xs[0]), [']'], [','], Elements(xs[1..]);
    var p := q + e + q;
    calc {
      Elements(xs) + b + t;
      p + c + rest + b + t;
      { Assoc(p + c + rest, b, t); }
      p + c + rest + (b + t);
      { Assoc(p + c, rest, b + t); Assoc(rest, b, t); }
      p + c + (rest + b + t);
      { Assoc(p, c, rest + b + t); }
      p + (c + (rest + b + t));
      { Assoc(q + e, q, c + (rest + b + t)); }
      q + e + (q + (c + (rest + b + t)));
      { Assoc(q, e, q + (c + (rest + b + t))); }
      q + (e + (q + (c + (rest + b + t))));
      { Assoc(e, q, c + (rest + b + t)); }
      q + (e + q + (c + (rest + b + t)));
    }
  }

  lemma Assoc(a: string, b: string, c: string)
    ensures a + b + c == a + (b + c)
  {
  }

  lemma {:induction false} ParseWrittenElements(xs: seq<string>, t: string)
    requires xs != []
    ensures ParseElements(Elements(xs) + [']'] + t) == Some((xs, t))
    decreases |xs|
  {
    var x := xs[0];
    var tail := if |xs| == 1 then [']'] + t else [','] + (Elements(xs[1..]) + [']'] + t);
    var s := ['"'] + (Escape(x) + ['"'] + tail);
    if |xs| == 1 {
      ElementsSplitOne(xs, t);
    } else {
      ElementsSplitMore(xs, t);
    }
    assert s[1..] == Escape(x) + ['"'] + tail;
    ParseEscaped(x, tail);
    ParseElementsStep(s, x, tail);
    if |xs| == 1 {
      assert tail[1..] == t;
      assert xs == [x];
    } else {
      assert tail[1..] == Elements(xs[1..]) + [']'] + t;
      ParseWrittenElements(xs[1..], t);
      assert [x] + xs[1..] == xs;
    }
  }

  /** What the edit page writes, the server reads back unchanged. */
  lemma ParseStringify(xs: seq<string>)
    ensures ParseStringArray(Stringify(xs)) == Some(xs)
  {
    var s := Stringify(xs);
    assert s[1..] == Elements(xs) + [']'] + [];
    if xs == [] {
      assert s[1..] == [']'];
    } else {
      assert Elements(xs)[0] == '"';
      ParseWrittenElements(xs, []);
    }
  }
}
