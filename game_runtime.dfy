/**
 * The text and key helpers of src/GameRuntime.cpp: the environment
 * boolean parser, the key-code table that feeds the UI, and the UTF-8
 * decoder that turns typed text into UI codepoint events.
 */
module GameRuntime {
  import opened Common
  import opened Text

  /** The literals ParseBooleanEnvValue accepts, compared ignoring ASCII case. */
  const TrueWords: seq<string> := ["1", "true", "yes", "on", "enabled"]
  const FalseWords: seq<string> := ["0", "false", "no", "off", "disabled"]

  /**
   * ParseBooleanEnvValue: an unset or empty variable gives none; a word of
   * the first list gives true, one of the second false, anything else none.
   */
  function ParseBooleanEnvValue(value: Option<string>): (r: Option<bool>)
    ensures value.None? || value.value == [] ==> r.None?
    ensures r == Some(true) <==> value.Some? && MatchesAnyIgnoringCase(value.value, TrueWords)
    ensures r == Some(false) <==> value.Some? && MatchesAnyIgnoringCase(value.value, FalseWords)
  {
    WordListsDisjoint();
    if value.None? || value.value == [] then None
    else if MatchesAnyIgnoringCase(value.value, TrueWords) then Some(true)
    else if MatchesAnyIgnoringCase(value.value, FalseWords) then Some(false)
    else None
  }

  /** No text matches a word of both lists, so the order of the two tests does not matter. */
  lemma WordListsDisjoint()
    ensures forall s: string :: !(MatchesAnyIgnoringCase(s, TrueWords) && MatchesAnyIgnoringCase(s, FalseWords))
  {
    forall s: string | MatchesAnyIgnoringCase(s, TrueWords)
      ensures !MatchesAnyIgnoringCase(s, FalseWords)
    {
      var i :| 0 <= i < |TrueWords| && SameIgnoringCase(s, TrueWords[i]);
      forall j | 0 <= j < |FalseWords|
        ensures !SameIgnoringCase(s, FalseWords[j])
      {
        if |s| == |FalseWords[j]| {
          assert ToLower(s[0]) == ToLower(TrueWords[i][0]);
        }
      }
    }
  }

  type LetterIndex = x: nat | x < 26
  type Digit = x: nat | x < 10

  /**
   * The keys MapUiKeyCode names; `Unlisted` stands for every other key of
   * the input library's enumeration, carrying its raw enumerator value.
   */
  datatype Key =
    | Backspace | Tab | Enter | NumpadEnter | Escape | Space
    | Letter(index: LetterIndex)
    | Num(digit: Digit) | Numpad(digit: Digit)
    | Period | NumpadPeriod | Minus | NumpadMinus | Equals
    | LeftBracket | RightBracket | Backslash | Semicolon | Apostrophe | Grave | Comma | Slash
    | Delete | Left | Right | Up | Down | Home | End | PageUp | PageDown
    | Unlisted(raw: U32)

  /** MapUiKeyCode: the key code the UI layer receives for a key. */
  function MapUiKeyCode(key: Key): (code: U32)
    ensures key.Letter? ==> code == 'a' as int + key.index
    ensures key.Num? || key.Numpad? ==> code == '0' as int + key.digit
    ensures key == Enter || key == NumpadEnter ==> code == 13
    ensures key.Unlisted? ==> code == key.raw
  {
    match key
    case Backspace => 8
    case Tab => 9
    case Enter => 13
    case NumpadEnter => 13
    case Escape => 27
    case Space => ' ' as int
    case Letter(i) => 'a' as int + i
    case Num(d) => '0' as int + d
    case Numpad(d) => '0' as int + d
    case Period => '.' as int
    case NumpadPeriod => '.' as int
    case Minus => '-' as int
    case NumpadMinus => '-' as int
    case Equals => '=' as int
    case LeftBracket => '[' as int
    case RightBracket => ']' as int
    case Backslash => '\\' as int
    case Semicolon => ';' as int
    case Apostrophe => '\'' as int
    case Grave => '`' as int
    case Comma => ',' as int
    case Slash => '/' as int
    case Delete => 127
    case Left => 1073741904
    case Right => 1073741903
    case Up => 1073741906
    case Down => 1073741905
    case Home => 1073741898
    case End => 1073741901
    case PageUp => 1073741899
    case PageDown => 1073741902
    case Unlisted(raw) => raw
  }

  /** Letter and digit keys map to distinct printable ASCII codes. */
  lemma PrintableKeysDistinct(a: Key, b: Key)
    requires (a.Letter? || a.Num?) && (b.Letter? || b.Num?)
    ensures MapUiKeyCode(a) == MapUiKeyCode(b) <==> a == b
    ensures 0x20 <= MapUiKeyCode(a) < 0x7F
  {
  }

  /** 10xxxxxx: the bit pattern of a continuation byte. */
  predicate IsContinuation(b: Byte) {
    b / 64 == 2
  }

  /**
   * One step of PushUtf8CodepointsToUi on the bytes from the current index
   * on: the codepoint it emits and how far it advances. The lead-byte tests
   * (C0 & 0xE0) == 0xC0, (C0 & 0xF0) == 0xE0 and (C0 & 0xF8) == 0xF0 are
   * C0 / 32 == 6, C0 / 16 == 14 and C0 / 8 == 30; the payload masks 0x1F,
   * 0x0F, 0x07 and 0x3F are the remainders by 32, 16, 8 and 64, and the
   * shifts by 6, 12 and 18 are products by 64, 4096 and 262144. A lead
   * byte whose sequence is cut off by the end of the text, or followed by
   * a byte that is not a continuation byte, is emitted as itself.
   */
  function Step(t: seq<Byte>): (r: (nat, nat))
    requires |t| > 0
    ensures 1 <= r.1 <= 4 && r.1 <= |t|
  {
    var c0: nat := t[0];
    if c0 / 32 == 6 && 1 < |t| then
      if IsContinuation(t[1]) then ((c0 % 32) * 64 + t[1] as nat % 64, 2) else (c0, 1)
    else if c0 / 16 == 14 && 2 < |t| then
      if IsContinuation(t[1]) && IsContinuation(t[2]) then
        ((c0 % 16) * 4096 + (t[1] as nat % 64) * 64 + t[2] as nat % 64, 3)
      else (c0, 1)
    else if c0 / 8 == 30 && 3 < |t| then
      if IsContinuation(t[1]) && IsContinuation(t[2]) && IsContinuation(t[3]) then
        ((c0 % 8) * 262144 + (t[1] as nat % 64) * 4096 + (t[2] as nat % 64) * 64 + t[3] as nat % 64, 4)
      else (c0, 1)
    else (c0, 1)
  }

  /** The codepoints PushUtf8CodepointsToUi pushes for a text. */
  function Codepoints(t: seq<Byte>): (r: seq<nat>)
    decreases |t|
  {
    if t == [] then [] else var s := Step(t); [s.0] + Codepoints(t[s.1..])
  }

  /** At most one codepoint per byte. */
  lemma {:induction false} CodepointsAtMostBytes(t: seq<Byte>)
    ensures |Codepoints(t)| <= |t|
    decreases |t|
  {
    if t != [] {
      CodepointsAtMostBytes(t[Step(t).1..]);
    }
  }

  /** Text made of bytes below 0x80 comes through byte for byte. */
  lemma {:induction false} AsciiUnchanged(t: seq<Byte>)
    requires forall k :: 0 <= k < |t| ==> t[k] < 0x80
    ensures |Codepoints(t)| == |t| && forall k :: 0 <= k < |t| ==> Codepoints(t)[k] == t[k]
    decreases |t|
  {
    if t != [] {
      assert Step(t) == (t[0] as nat, 1);
      AsciiUnchanged(t[1..]);
    }
  }

  /** The sequence length a lead byte announces: 2, 3 or 4, and 1 for any other byte. */
  function Announced(lead: Byte): (n: nat)
    ensures 1 <= n <= 4
  {
    if lead / 32 == 6 then 2 else if lead / 16 == 14 then 3 else if lead / 8 == 30 then 4 else 1
  }

  /** A lead byte whose sequence is cut off by the end of the text is emitted alone. */
  lemma TruncatedLead(lead: Byte, tail: seq<Byte>)
    requires |tail| < Announced(lead) - 1
    ensures Step([lead] + tail) == (lead as nat, 1)
  {
  }

  /** A lead byte followed by a byte that is not a continuation byte is emitted alone. */
  lemma BrokenSequence(lead: Byte, next: Byte, tail: seq<Byte>)
    requires Announced(lead) >= 2 && |tail| >= Announced(lead) - 2
    requires !IsContinuation(next)
    ensures Step([lead, next] + tail) == (lead as nat, 1)
  {
    var t := [lead, next] + tail;
    assert t[1] == next;
  }

  /**
   * Overlong forms and surrogates are decoded, not rejected: C0 80 gives
   * codepoint 0 and ED A0 80 gives the surrogate D800.
   */
  lemma NotValidating()
    ensures Step([0xC0, 0x80]) == (0, 2)
    ensures Step([0xED, 0xA0, 0x80]) == (0xD800, 3)
  {
  }

  /** The RFC 3629 section 3 encoding of one codepoint: 1 to 4 bytes by range. */
  function Encode(cp: nat): (r: seq<Byte>)
    requires cp < 0x11_0000
    ensures 1 <= |r| <= 4
  {
    if cp < 0x80 then [cp]
    else if cp < 0x800 then [0xC0 + cp / 64, 0x80 + cp % 64]
    else if cp < 0x1_0000 then [0xE0 + cp / 4096, 0x80 + (cp / 64) % 64, 0x80 + cp % 64]
    else [0xF0 + cp / 262144, 0x80 + (cp / 4096) % 64, 0x80 + (cp / 64) % 64, 0x80 + cp % 64]
  }

  /** The decoder reads back the codepoint of every complete encoded sequence, whatever follows it. */
  lemma StepEncoded(cp: nat, rest: seq<Byte>)
    requires cp < 0x11_0000
    ensures Step(Encode(cp) + rest) == (cp, |Encode(cp)|)
  {
    if cp < 0x80 {
    } else if cp < 0x800 {
      EncodedTwo(cp, rest);
    } else if cp < 0x1_0000 {
      EncodedThree(cp, rest);
    } else {
      EncodedFour(cp, rest);
    }
  }

  lemma EncodedTwo(cp: nat, rest: seq<Byte>)
    requires 0x80 <= cp < 0x800
    ensures Step(Encode(cp) + rest) == (cp, 2)
  {
    var a, b := cp / 64, cp % 64;
    assert Encode(cp) == [0xC0 + a, 0x80 + b];
    StepTwo(a, b, rest);
    assert a * 64 + b == cp;
  }

  lemma EncodedThree(cp: nat, rest: seq<Byte>)
    requires 0x800 <= cp < 0x1_0000
    ensures Step(Encode(cp) + rest) == (cp, 3)
  {
    var m := cp / 64;
    DigitsOf(cp);
    StepThree(m / 64, m % 64, cp % 64, rest);
  }

  lemma EncodedFour(cp: nat, rest: seq<Byte>)
    requires 0x1_0000 <= cp < 0x11_0000
    ensures Step(Encode(cp) + rest) == (cp, 4)
  {
    var m := cp / 64;
    var h := m / 64;
    DigitsOf(cp);
    DigitsOf(m);
    StepFour(h / 64, h % 64, m % 64, cp % 64, rest);
  }

  /** Taking six bits off twice is taking twelve off once. */
  lemma DigitsOf(x: nat)
    ensures x == (x / 64) * 64 + x % 64
    ensures x / 4096 == (x / 64) / 64 && x / 262144 == ((x / 64) / 64) / 64
  {
    var q, r := x / 64, x % 64;
    var q2, r2 := q / 64, q % 64;
    var q3, r3 := q2 / 64, q2 % 64;
    assert x == 4096 * q2 + (64 * r2 + r);
    assert x == 262144 * q3 + (4096 * r3 + 64 * r2 + r);
  }

  lemma StepTwo(a: nat, b: nat, rest: seq<Byte>)
    requires 2 <= a < 32 && b < 64
    ensures Step([0xC0 + a, 0x80 + b] + rest) == (a * 64 + b, 2)
  {
    var t := [0xC0 + a, 0x80 + b] + rest;
    assert t[0] / 32 == 6 && t[0] % 32 == a;
    assert IsContinuation(t[1]) && t[1] % 64 == b;
  }

  lemma StepThree(a: nat, b: nat, c: nat, rest: seq<Byte>)
    requires a < 16 && b < 64 && c < 64
    ensures Step([0xE0 + a, 0x80 + b, 0x80 + c] + rest) == (a * 4096 + b * 64 + c, 3)
  {
    var t := [0xE0 + a, 0x80 + b, 0x80 + c] + rest;
    assert t[0] / 32 == 7 && t[0] / 16 == 14 && t[0] % 16 == a;
    assert IsContinuation(t[1]) && t[1] % 64 == b;
    assert IsContinuation(t[2]) && t[2] % 64 == c;
  }

  lemma StepFour(a: nat, b: nat, c: nat, d: nat, rest: seq<Byte>)
    requires a < 8 && b < 64 && c < 64 && d < 64
    ensures Step([0xF0 + a, 0x80 + b, 0x80 + c, 0x80 + d] + rest) == (a * 262144 + b * 4096 + c * 64 + d, 4)
  {
    var t := [0xF0 + a, 0x80 + b, 0x80 + c, 0x80 + d] + rest;
    assert t[0] / 32 == 7 && t[0] / 16 == 15 && t[0] / 8 == 30 && t[0] % 8 == a;
    assert IsContinuation(t[1]) && t[1] % 64 == b;
    assert IsContinuation(t[2]) && t[2] % 64 == c;
    assert IsContinuation(t[3]) && t[3] % 64 == d;
  }

  function EncodeAll(cps: seq<nat>): (r: seq<Byte>)
    requires forall k :: 0 <= k < |cps| ==> cps[k] < 0x11_0000
  {
    if cps == [] then [] else Encode(cps[0]) + EncodeAll(cps[1..])
  }

  /** Round trip: decoding the RFC 3629 encoding of codepoints gives them back. */
  lemma {:induction false} DecodeEncoded(cps: seq<nat>)
    requires forall k :: 0 <= k < |cps| ==> cps[k] < 0x11_0000
    ensures Codepoints(EncodeAll(cps)) == cps
  {
    if cps != [] {
      var e := Encode(cps[0]);
      var rest := EncodeAll(cps[1..]);
      StepEncoded(cps[0], rest);
      assert (e + rest)[|e|..] == rest;
      DecodeEncoded(cps[1..]);
    }
  }

  /** One turn of the decoding loop moves one codepoint from the rest to the decoded prefix. */
  lemma DecodedPrefixStep(pushed: seq<nat>, u: seq<Byte>)
    requires |u| > 0
    ensures (pushed + [Step(u).0]) + Codepoints(u[Step(u).1..]) == pushed + Codepoints(u)
  {
  }

  /**
   * PushUtf8CodepointsToUi: the decoding loop; the UI event queue is the
   * returned sequence of codepoints. `u` is the text from the source's
   * index on, so `u[k]` is the source's `Text[I + k]`.
   */
  method PushUtf8Codepoints(t: seq<Byte>) returns (pushed: seq<nat>)
    ensures pushed == Codepoints(t)
    ensures |pushed| <= |t|
  {
    CodepointsAtMostBytes(t);
    pushed := [];
    var u := t;
    while u != []
      invariant pushed + Codepoints(u) == Codepoints(t)
      decreases |u|
    {
      var c0: nat := u[0];
      var codepoint := c0;
      var advance := 1;
      if c0 / 32 == 6 && 1 < |u| {
        if IsContinuation(u[1]) {
          codepoint, advance := (c0 % 32) * 64 + u[1] as nat % 64, 2;
        }
        assert Step(u) == (codepoint, advance);
      } else if c0 / 16 == 14 && 2 < |u| {
        if IsContinuation(u[1]) && IsContinuation(u[2]) {
          codepoint, advance := (c0 % 16) * 4096 + (u[1] as nat % 64) * 64 + u[2] as nat % 64, 3;
        }
        assert Step(u) == (codepoint, advance);
      } else if c0 / 8 == 30 && 3 < |u| {
        if IsContinuation(u[1]) && IsContinuation(u[2]) && IsContinuation(u[3]) {
          codepoint, advance := (c0 % 8) * 262144 + (u[1] as nat % 64) * 4096 + (u[2] as nat % 64) * 64 + u[3] as nat % 64, 4;
        }
        assert Step(u) == (codepoint, advance);
      } else {
        assert Step(u) == (codepoint, advance);
      }
      DecodedPrefixStep(pushed, u);
      pushed := pushed + [codepoint];
      u := u[advance..];
    }
  }
}
