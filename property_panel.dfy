/**
 * The value plumbing of src/UIPropertyPanel.cpp: the raw unsigned
 * accessors the enum editor writes through, the width conversions, the
 * decimal parsers, the enum text resolution, the field-name prettifier,
 * the boolean parser, and the generation check that keeps an editor from
 * writing through a binding of an earlier rebuild.
 */
module PropertyPanel {
  import opened Common
  import opened Text

  type I64 = x: int | -0x8000_0000_0000_0000 <= x < 0x8000_0000_0000_0000

  /** The widths, in bytes, that the raw accessors and conversions handle. */
  predicate ValidSize(size: nat) {
    size == 1 || size == 2 || size == 4 || size == 8
  }

  /** 256 to the power `n`: one more than the largest unsigned value of `n` bytes. */
  function Pow256(n: nat): (r: nat)
    ensures r >= 1
  {
    if n == 0 then 1 else 256 * Pow256(n - 1)
  }

  /** 2^(8 * size - 1): the bound of the signed range of the width. */
  function SignedLimit(size: nat): (r: int)
    ensures r >= 0
  {
    Pow256(size) / 2
  }

  lemma Pow256Widths()
    ensures Pow256(1) == 0x100 && Pow256(2) == 0x1_0000
    ensures Pow256(4) == 0x1_0000_0000 && Pow256(8) == 0x1_0000_0000_0000_0000
  {
  }

  /** The `n` bytes of `v` in memory order, least significant first. */
  function LittleEndian(v: nat, n: nat): (r: seq<Byte>)
    ensures |r| == n
  {
    if n == 0 then [] else [v % 256] + LittleEndian(v / 256, n - 1)
  }

  /** The unsigned value of bytes in memory order. */
  function FromLittleEndian(b: seq<Byte>): (r: nat)
    ensures r < Pow256(|b|)
  {
    if b == [] then 0 else b[0] + 256 * FromLittleEndian(b[1..])
  }

  /** Storing a value that fits and loading it back gives the value. */
  lemma {:induction false} LittleEndianRoundTrip(v: nat, n: nat)
    requires v < Pow256(n)
    ensures FromLittleEndian(LittleEndian(v, n)) == v
  {
    if n > 0 {
      LittleEndianRoundTrip(v / 256, n - 1);
      assert LittleEndian(v, n)[1..] == LittleEndian(v / 256, n - 1);
    }
  }

  /**
   * ReadUnsignedBits: a null source or an unsupported width fails; else
   * the `size` bytes at the source, zero-extended to 64 bits.
   */
  function ReadUnsignedBits(source: array?<Byte>, size: nat): (r: Option<U64>)
    reads source
    requires source != null && ValidSize(size) ==> size <= source.Length
    ensures r.Some? <==> source != null && ValidSize(size)
    ensures r.Some? ==> r.value < Pow256(size) && LittleEndian(r.value, size) == source[..size]
  {
    if source == null || !ValidSize(size) then None
    else
      Pow256Widths();
      WrittenBytes(source[..size]);
      Some(FromLittleEndian(source[..size]))
  }

  /** Loading bytes and storing the value back gives the bytes. */
  lemma {:induction false} WrittenBytes(b: seq<Byte>)
    ensures LittleEndian(FromLittleEndian(b), |b|) == b
  {
    if b != [] {
      WrittenBytes(b[1..]);
      var w := FromLittleEndian(b[1..]);
      ByteDigit(b[0] as nat, w);
      assert LittleEndian(FromLittleEndian(b), |b|) == [b[0]] + LittleEndian(w, |b| - 1);
    }
  }

  /** The low byte and the rest of `d + 256 * w`. */
  lemma ByteDigit(d: nat, w: nat)
    requires d < 256
    ensures (d + 256 * w) % 256 == d && (d + 256 * w) / 256 == w
  {
  }

  /**
   * WriteUnsignedBits: a null destination, an unsupported width, or a
   * value above the width's maximum fails and writes nothing; else the
   * value's `size` bytes replace the first `size` bytes of the destination.
   */
  method WriteUnsignedBits(dest: array?<Byte>, size: nat, value: U64) returns (ok: bool)
    requires dest != null && ValidSize(size) ==> size <= dest.Length
    modifies dest
    ensures ok <==> dest != null && ValidSize(size) && value < Pow256(size)
    ensures ok ==> dest[..size] == LittleEndian(value, size) && dest[size..] == old(dest[size..])
    ensures ok ==> ReadUnsignedBits(dest, size) == Some(value)
    ensures !ok && dest != null ==> dest[..] == old(dest[..])
  {
    if dest == null || !ValidSize(size) {
      return false;
    }
    Pow256Widths();
    if (size == 1 && value > 0xFF) || (size == 2 && value > 0xFFFF) || (size == 4 && value > 0xFFFF_FFFF) {
      return false;
    }
    var bytes := LittleEndian(value, size);
    forall k | 0 <= k < size {
      dest[k] := bytes[k];
    }
    assert dest[..size] == bytes;
    LittleEndianRoundTrip(value, size);
    ok := true;
  }

  /** ConvertUnsignedToBits: the value itself when it fits the width; otherwise, or for an unsupported width, a failure. */
  function ConvertUnsignedToBits(value: U64, size: nat): (r: Option<U64>)
    ensures r.Some? <==> ValidSize(size) && value < Pow256(size)
    ensures r.Some? ==> r.value == value
  {
    Pow256Widths();
    if size == 1 then (if value > 0xFF then None else Some(value))
    else if size == 2 then (if value > 0xFFFF then None else Some(value))
    else if size == 4 then (if value > 0xFFFF_FFFF then None else Some(value))
    else if size == 8 then Some(value)
    else None
  }

  /**
   * ConvertSignedToBits: for a value in the width's signed range, its two's
   * complement bit pattern, which is its residue modulo 2^(8 * size); a
   * failure outside the range or for an unsupported width.
   */
  function ConvertSignedToBits(value: I64, size: nat): (r: Option<U64>)
    ensures r.Some? <==> ValidSize(size) && -SignedLimit(size) <= value < SignedLimit(size)
    ensures r.Some? ==> r.value == value % Pow256(size)
  {
    Pow256Widths();
    if size == 1 then (if value < -0x80 || value > 0x7F then None else Some(if value < 0 then value + 0x100 else value))
    else if size == 2 then (if value < -0x8000 || value > 0x7FFF then None else Some(if value < 0 then value + 0x1_0000 else value))
    else if size == 4 then
      (if value < -0x8000_0000 || value > 0x7FFF_FFFF then None
       else Some(if value < 0 then value + 0x1_0000_0000 else value))
    else if size == 8 then Some(if value < 0 then value + 0x1_0000_0000_0000_0000 else value)
    else None
  }

  /**
   * SignExtend: the low `size` bytes read as a two's-complement number, the
   * one value of the signed range congruent to the input; 0 for an
   * unsupported width.
   */
  function SignExtend(value: U64, size: nat): (r: I64)
    ensures ValidSize(size) ==> -SignedLimit(size) <= r < SignedLimit(size) && r % Pow256(size) == value % Pow256(size)
    ensures !ValidSize(size) ==> r == 0
  {
    Pow256Widths();
    if size == 1 then (var low := value % 0x100; if low >= 0x80 then low - 0x100 else low)
    else if size == 2 then (var low := value % 0x1_0000; if low >= 0x8000 then low - 0x1_0000 else low)
    else if size == 4 then (var low := value % 0x1_0000_0000; if low >= 0x8000_0000 then low - 0x1_0000_0000 else low)
    else if size == 8 then (if value >= 0x8000_0000_0000_0000 then value - 0x1_0000_0000_0000_0000 else value)
    else 0
  }

  /** Two numbers less than `m` apart with the same residue modulo `m` are equal. */
  lemma CongruentClose(a: int, b: int, m: nat)
    requires m > 0 && -(m as int) < a - b < m && a % m == b % m
    ensures a == b
  {
    var q := a / m - b / m;
    assert a - b == m * q;
  }

  /** Sign extension undoes the signed conversion. */
  lemma SignedRoundTrip(value: I64, size: nat)
    requires ConvertSignedToBits(value, size).Some?
    ensures SignExtend(ConvertSignedToBits(value, size).value, size) == value
  {
    var bits := ConvertSignedToBits(value, size).value;
    var back := SignExtend(bits, size);
    Pow256Widths();
    if size == 1 {
      CongruentClose(back, value, 0x100);
    } else if size == 2 {
      CongruentClose(back, value, 0x1_0000);
    } else if size == 4 {
      CongruentClose(back, value, 0x1_0000_0000);
    } else {
      CongruentClose(back, value, 0x1_0000_0000_0000_0000);
    }
  }

  // ---------------------------------------------------------------------
  // Decimal text (std::strtoll / std::strtoull with base 10)
  // ---------------------------------------------------------------------

  /** Digits after at most one sign: the whole of what strtoll/strtoull must consume for ParseSigned/ParseUnsigned to succeed. */
  predicate DecimalSyntax(s: string) {
    if |s| > 0 && (s[0] == '+' || s[0] == '-') then |s| > 1 && AllDigits(s[1..]) else |s| > 0 && AllDigits(s)
  }

  function Magnitude(s: string): (m: nat)
    requires DecimalSyntax(s)
  {
    if s[0] == '+' || s[0] == '-' then DecimalValue(s[1..]) else DecimalValue(s)
  }

  const I64Min: int := -0x8000_0000_0000_0000
  const I64Max: int := 0x7FFF_FFFF_FFFF_FFFF

  /**
   * ParseSigned: the trimmed text must be non-empty and entirely a signed
   * decimal number; out-of-range numbers saturate, as strtoll reports them
   * through errno, which the parser does not inspect.
   */
  function ParseSigned(text: string): (r: Option<I64>)
    ensures r.Some? <==> DecimalSyntax(Trimmed(text))
    ensures r.Some? ==> var t := Trimmed(text);
      r.value == if t[0] == '-' then (if Magnitude(t) > -I64Min then I64Min else -(Magnitude(t) as int))
                 else (if Magnitude(t) > I64Max then I64Max else Magnitude(t))
  {
    var t := Trimmed(text);
    if t == [] || !DecimalSyntax(t) then None
    else
      var m := Magnitude(t);
      if t[0] == '-' then Some(if m > -I64Min then I64Min else -(m as int))
      else Some(if m > I64Max then I64Max else m)
  }

  /**
   * ParseUnsigned: as ParseSigned, with strtoull's rules: a magnitude above
   * the 64-bit maximum saturates, and a minus sign negates modulo 2^64.
   */
  function ParseUnsigned(text: string): (r: Option<U64>)
    ensures r.Some? <==> DecimalSyntax(Trimmed(text))
  {
    var t := Trimmed(text);
    if t == [] || !DecimalSyntax(t) then None
    else
      var m := Magnitude(t);
      if m > U64Max then Some(U64Max)
      else if t[0] == '-' then Some((0x1_0000_0000_0000_0000 - m) % 0x1_0000_0000_0000_0000)
      else Some(m)
  }

  /** Parsing the decimal text of an unsigned 64-bit value gives the value back. */
  lemma UnsignedTextRoundTrip(n: U64)
    ensures ParseUnsigned(DecimalText(n)) == Some(n)
  {
    var s := DecimalText(n);
    TrimmedNoSpaceEnds(s);
    DecimalTextValue(n);
  }

  /** The decimal text of a signed 64-bit value, with a leading minus when negative. */
  function SignedText(v: I64): (r: string)
  {
    if v < 0 then "-" + DecimalText(-(v as int)) else DecimalText(v)
  }

  /** Parsing the decimal text of a signed 64-bit value gives the value back. */
  lemma SignedTextRoundTrip(v: I64)
    ensures ParseSigned(SignedText(v)) == Some(v)
  {
    var s := SignedText(v);
    if v < 0 {
      DecimalTextValue(-(v as int));
      assert s[1..] == DecimalText(-(v as int));
    } else {
      DecimalTextValue(v);
    }
    TrimmedNoSpaceEnds(s);
  }

  // ---------------------------------------------------------------------
  // Enum text writes
  // ---------------------------------------------------------------------

  /** One reflected enumerator: its (possibly qualified) name and its bits. */
  datatype EnumValue = EnumValue(name: string, value: U64)

  /** The reflected description of an enum type: width in bytes, signedness and enumerators. */
  datatype EnumInfo = EnumInfo(isEnum: bool, size: nat, isSigned: bool, values: seq<EnumValue>)

  /** An enumerator answers to its full name, or to what follows the last `::` of a qualified name, ignoring case. */
  predicate NameMatches(e: EnumValue, text: string) {
    SameIgnoringCase(e.name, text)
    || (LastOccurrence(e.name, "::").Some? && SameIgnoringCase(AfterLast(e.name, "::"), text))
  }

  /** The first enumerator that answers to the text. */
  function FirstMatch(values: seq<EnumValue>, text: string): (r: Option<nat>)
    ensures r.Some? ==> r.value < |values| && NameMatches(values[r.value], text)
    ensures r.Some? ==> forall j :: 0 <= j < r.value ==> !NameMatches(values[j], text)
    ensures r.None? ==> forall j :: 0 <= j < |values| ==> !NameMatches(values[j], text)
  {
    if values == [] then None
    else if NameMatches(values[0], text) then Some(0)
    else match FirstMatch(values[1..], text)
      case None => None
      case Some(k) => Some(k + 1)
  }

  /** The bits of the first enumerator answering to the text. */
  function MatchedValue(values: seq<EnumValue>, text: string): (r: Option<U64>)
    ensures r.Some? <==> FirstMatch(values, text).Some?
  {
    match FirstMatch(values, text)
    case None => None
    case Some(k) => Some(values[k].value)
  }

  /**
   * The bits an enum text resolves to: the first enumerator answering to
   * its trimmed form, else the trimmed text as a number of the enum's
   * signedness that fits its width; empty text resolves to nothing.
   */
  function ResolveEnumText(info: EnumInfo, text: string): (r: Option<U64>)
    ensures Trimmed(text) == [] ==> r.None?
    ensures Trimmed(text) != [] && FirstMatch(info.values, Trimmed(text)).Some? ==>
      r == MatchedValue(info.values, Trimmed(text))
    ensures Trimmed(text) != [] && FirstMatch(info.values, Trimmed(text)).None? && !info.isSigned ==>
      r == if ParseUnsigned(Trimmed(text)).Some? then ConvertUnsignedToBits(ParseUnsigned(Trimmed(text)).value, info.size) else None
    ensures Trimmed(text) != [] && FirstMatch(info.values, Trimmed(text)).None? && info.isSigned ==>
      r == if ParseSigned(Trimmed(text)).Some? then ConvertSignedToBits(ParseSigned(Trimmed(text)).value, info.size) else None
  {
    var t := Trimmed(text);
    if t == [] then None
    else match MatchedValue(info.values, t)
      case Some(bits) => Some(bits)
      case None =>
        if info.isSigned then
          match ParseSigned(t)
          case None => None
          case Some(v) => ConvertSignedToBits(v, info.size)
        else
          match ParseUnsigned(t)
          case None => None
          case Some(v) => ConvertUnsignedToBits(v, info.size)
  }

  /**
   * The guards of the enum editor: the field type must be a reflected enum
   * of 1 to 8 bytes and the field must expose a mutable pointer.
   */
  predicate EnumWritable(info: Option<EnumInfo>, hasMutablePointer: bool) {
    info.Some? && info.value.isEnum && 0 < info.value.size <= 8 && hasMutablePointer
  }

  /**
   * The enumerator loop of the Enum case: per enumerator, the full name and
   * then the short name, stopping at the first that answers to the text.
   */
  method ScanEnumNames(values: seq<EnumValue>, trimmed: string) returns (bits: U64, resolved: bool)
    ensures resolved <==> FirstMatch(values, trimmed).Some?
    ensures resolved ==> MatchedValue(values, trimmed) == Some(bits)
  {
    bits, resolved := 0, false;
    var i := 0;
    while i < |values|
      invariant 0 <= i <= |values|
      invariant forall j :: 0 <= j < i ==> !NameMatches(values[j], trimmed)
      invariant resolved ==> FirstMatch(values, trimmed) == Some(i) && MatchedValue(values, trimmed) == Some(bits)
      decreases |values| - i, if resolved then 0 else 1
    {
      var hit := EntryMatches(values[i], trimmed);
      if hit {
        FirstMatchAt(values, trimmed, i);
        bits, resolved := values[i].value, true;
        break;
      }
      i := i + 1;
    }
  }

  /** One turn of the enumerator loop: the full name, then the part after the last `::`. */
  method EntryMatches(entry: EnumValue, trimmed: string) returns (hit: bool)
    ensures hit <==> NameMatches(entry, trimmed)
  {
    hit := EqualsIgnoreCase(entry.name, trimmed);
    if hit {
      return;
    }
    var sep := LastOccurrence(entry.name, "::");
    if sep.Some? {
      var short := entry.name[sep.value + 2..];
      hit := EqualsIgnoreCase(short, trimmed);
    }
  }

  /** A matching enumerator with no match before it is the first match. */
  lemma FirstMatchAt(values: seq<EnumValue>, text: string, i: nat)
    requires i < |values| && NameMatches(values[i], text)
    requires forall j :: 0 <= j < i ==> !NameMatches(values[j], text)
    ensures FirstMatch(values, text) == Some(i) && MatchedValue(values, text) == Some(values[i].value)
  {
  }

  /**
   * The Enum case of ApplyTextValue: resolve the text by scanning the
   * enumerators in order (full name, then short name, per enumerator),
   * fall back to a number, and store the bits through WriteUnsignedBits.
   */
  method WriteEnumText(info: Option<EnumInfo>, hasMutablePointer: bool, dest: array?<Byte>, text: string)
    returns (ok: bool)
    requires EnumWritable(info, hasMutablePointer) && dest != null && ValidSize(info.value.size) ==> info.value.size <= dest.Length
    modifies dest
    ensures ok <==> EnumWritable(info, hasMutablePointer) && dest != null
                    && ResolveEnumText(info.value, text).Some? && ValidSize(info.value.size)
                    && ResolveEnumText(info.value, text).value < Pow256(info.value.size)
    ensures ok ==> ReadUnsignedBits(dest, info.value.size) == ResolveEnumText(info.value, text)
    ensures !ok && dest != null ==> dest[..] == old(dest[..])
  {
    if !EnumWritable(info, hasMutablePointer) {
      return false;
    }
    var e := info.value;
    var trimmed := TrimCopy(text);
    if |trimmed| == 0 {
      return false;
    }
    var bits, resolved := ScanEnumNames(e.values, trimmed);
    if !resolved {
      if e.isSigned {
        var parsed := ParseSigned(trimmed);
        if parsed.None? {
          return false;
        }
        var converted := ConvertSignedToBits(parsed.value, e.size);
        if converted.None? {
          return false;
        }
        bits := converted.value;
      } else {
        var parsed := ParseUnsigned(trimmed);
        if parsed.None? {
          return false;
        }
        var converted := ConvertUnsignedToBits(parsed.value, e.size);
        if converted.None? {
          return false;
        }
        bits := converted.value;
      }
    }
    assert Some(bits) == ResolveEnumText(e, text);
    if dest == null {
      return false;
    }
    ok := WriteUnsignedBits(dest, e.size, bits);
  }

  /** An enumerator answering to a text wins over reading the text as a number. */
  lemma NameBeforeNumber(info: EnumInfo, text: string, k: nat)
    requires k < |info.values| && Trimmed(text) != [] && NameMatches(info.values[k], Trimmed(text))
    ensures ResolveEnumText(info, text).Some?
    ensures exists j :: 0 <= j <= k && ResolveEnumText(info, text) == Some(info.values[j].value)
  {
    var m := FirstMatch(info.values, Trimmed(text));
    assert m.Some? && m.value <= k;
  }

  /** An unsigned enum accepts its enumerators' bit patterns written as decimal numbers. */
  lemma NumberFallback(info: EnumInfo, n: U64)
    requires !info.isSigned && ValidSize(info.size) && n < Pow256(info.size)
    requires FirstMatch(info.values, DecimalText(n)).None?
    ensures ResolveEnumText(info, DecimalText(n)) == Some(n)
  {
    var s := DecimalText(n);
    TrimmedNoSpaceEnds(s);
    UnsignedTextRoundTrip(n);
  }

  // ---------------------------------------------------------------------
  // Field names and booleans
  // ---------------------------------------------------------------------

  /** The space PrettyFieldName puts before `c` given the text before it: one before an upper-case letter that follows a lower-case letter or a digit. */
  function Gap(before: string, c: char): (r: string)
    ensures r == [] || r == " "
  {
    if before != [] && IsUpper(c) && (IsLower(before[|before| - 1]) || IsDigit(before[|before| - 1])) then " " else []
  }

  /** The prettified name: each character preceded by its gap. */
  function Prettified(s: string): (r: string)
    ensures |r| >= |s|
  {
    if s == [] then [] else var p := s[..|s| - 1]; Prettified(p) + Gap(p, s[|s| - 1]) + [s[|s| - 1]]
  }

  /** PrettyFieldName: one pass over the name, pushing a space where a word starts and then the character. */
  method PrettyFieldName(name: string) returns (out: string)
    ensures out == Prettified(name)
  {
    out := [];
    var index := 0;
    while index < |name|
      invariant 0 <= index <= |name|
      invariant out == Prettified(name[..index])
    {
      var c := name[index];
      if index > 0 && IsUpper(c) && (IsLower(name[index - 1]) || IsDigit(name[index - 1])) {
        out := out + " ";
      }
      out := out + [c];
      assert name[..index + 1][..index] == name[..index];
      index := index + 1;
    }
    assert name[..index] == name;
  }

  /** The text with every space removed. */
  function Unspaced(s: string): (r: string)
    ensures |r| <= |s|
  {
    if s == [] then [] else Unspaced(s[..|s| - 1]) + (if s[|s| - 1] == ' ' then [] else [s[|s| - 1]])
  }

  lemma {:induction false} UnspacedAppend(a: string, b: string)
    ensures Unspaced(a + b) == Unspaced(a) + Unspaced(b)
    decreases |b|
  {
    if b != [] {
      var b' := b[..|b| - 1];
      assert (a + b)[..|a + b| - 1] == a + b';
      UnspacedAppend(a, b');
    } else {
      assert a + b == a;
    }
  }

  /** Prettifying only adds spaces: with the spaces removed, the name is what it was. */
  lemma {:induction false} PrettifiedOnlyAddsSpaces(s: string)
    ensures Unspaced(Prettified(s)) == Unspaced(s)
    decreases |s|
  {
    if s != [] {
      var p := s[..|s| - 1];
      var c := s[|s| - 1];
      assert p + [c] == s;
      PrettifiedOnlyAddsSpaces(p);
      var g := Gap(p, c);
      assert Prettified(s) == Prettified(p) + g + [c];
      UnspacedAppend(Prettified(p) + g, [c]);
      UnspacedAppend(Prettified(p), g);
      UnspacedAppend(p, [c]);
      assert Unspaced(g) == [] by {
        if g == " " {
          assert Unspaced(" ") == Unspaced([]) + [];
        }
      }
    }
  }

  /** For a name without spaces, removing the spaces of the prettified name restores the name. */
  lemma PrettifiedRestores(s: string)
    requires forall k :: 0 <= k < |s| ==> s[k] != ' '
    ensures Unspaced(Prettified(s)) == s
  {
    PrettifiedOnlyAddsSpaces(s);
    NoSpaceUnspaced(s);
  }

  lemma {:induction false} NoSpaceUnspaced(s: string)
    requires forall k :: 0 <= k < |s| ==> s[k] != ' '
    ensures Unspaced(s) == s
    decreases |s|
  {
    if s != [] {
      NoSpaceUnspaced(s[..|s| - 1]);
    }
  }

  /** Prettifying a prettified name changes nothing. */
  lemma {:induction false} PrettifiedIdempotent(s: string)
    ensures Prettified(Prettified(s)) == Prettified(s)
    decreases |s|
  {
    if s != [] {
      var p := s[..|s| - 1];
      var c := s[|s| - 1];
      PrettifiedIdempotent(p);
      var pp := Prettified(p);
      assert Prettified(s) == pp + Gap(p, c) + [c];
      if Gap(p, c) == " " {
        assert Prettified(s) == pp + " " + [c];
        IdempotentAfterGap(pp, c);
      } else {
        if p != [] {
          PrettifiedLast(p);
        }
        assert p == [] <==> pp == [];
        assert Gap(pp, c) == [];
        IdempotentNoGap(pp, c);
      }
    }
  }

  lemma IdempotentAfterGap(pp: string, c: char)
    requires Prettified(pp) == pp
    ensures Prettified(pp + " " + [c]) == pp + " " + [c]
  {
    var sp := pp + " ";
    PrettifiedSnoc(pp, ' ');
    assert Gap(pp, ' ') == [];
    PrettifiedSnoc(sp, c);
    assert Gap(sp, c) == [];
  }

  lemma IdempotentNoGap(pp: string, c: char)
    requires Prettified(pp) == pp && Gap(pp, c) == []
    ensures Prettified(pp + [c]) == pp + [c]
  {
    PrettifiedSnoc(pp, c);
  }

  /** Prettifying keeps the last character last. */
  lemma PrettifiedLast(s: string)
    requires s != []
    ensures Prettified(s) != [] && Prettified(s)[|Prettified(s)| - 1] == s[|s| - 1]
  {
  }

  lemma PrettifiedSnoc(s: string, c: char)
    ensures Prettified(s + [c]) == Prettified(s) + Gap(s, c) + [c]
  {
    assert (s + [c])[..|s + [c]| - 1] == s;
  }

  /** The words ParseBool accepts for true and for false. */
  const PanelTrueWords: seq<string> := ["1", "true", "yes", "on"]
  const PanelFalseWords: seq<string> := ["0", "false", "no", "off"]

  /** ParseBool: the trimmed, lower-cased text compared with each word. */
  function ParseBool(text: string): (r: Option<bool>)
    ensures r == Some(true) <==> MatchesAnyIgnoringCase(Trimmed(text), PanelTrueWords)
    ensures r == Some(false) <==> MatchesAnyIgnoringCase(Trimmed(text), PanelFalseWords)
  {
    var n := LowerCopy(Trimmed(text));
    LowerWords(Trimmed(text), PanelTrueWords);
    LowerWords(Trimmed(text), PanelFalseWords);
    if n in PanelTrueWords then Some(true)
    else if n in PanelFalseWords then Some(false)
    else None
  }

  /** Against lower-case words, matching ignoring case is equality of the lower-cased copy. */
  lemma LowerWords(s: string, words: seq<string>)
    requires forall k, i :: 0 <= k < |words| && 0 <= i < |words[k]| ==> !IsUpper(words[k][i])
    ensures MatchesAnyIgnoringCase(s, words) <==> LowerCopy(s) in words
  {
    forall k | 0 <= k < |words|
      ensures LowerCopy(words[k]) == words[k]
    {
      LowerCopyOfLower(words[k]);
    }
    if MatchesAnyIgnoringCase(s, words) {
      var k :| 0 <= k < |words| && SameIgnoringCase(s, words[k]);
      SameIgnoringCaseLower(s, words[k]);
    }
    if LowerCopy(s) in words {
      var k :| 0 <= k < |words| && words[k] == LowerCopy(s);
      SameIgnoringCaseLower(s, words[k]);
    }
  }

  lemma {:induction false} LowerCopyOfLower(w: string)
    requires forall i :: 0 <= i < |w| ==> !IsUpper(w[i])
    ensures LowerCopy(w) == w
  {
    if w != [] {
      LowerCopyOfLower(w[1..]);
      assert w == [w[0]] + w[1..];
    }
  }

  /** Surrounding whitespace does not change what ParseBool reads. */
  lemma ParseBoolIgnoresPadding(text: string)
    ensures ParseBool(Trimmed(text)) == ParseBool(text)
  {
    TrimmedIdempotent(text);
  }

  // ---------------------------------------------------------------------
  // Bindings and their generations
  // ---------------------------------------------------------------------

  /** One property editor's binding: the field it edits and the rebuild it belongs to. */
  datatype FieldBinding = FieldBinding(fieldType: TypeId, readOnly: bool, generation: nat)

  /**
   * The binding table of a UIPropertyPanel. Every rebuild and every
   * ClearObject moves to a new generation, so an editor callback holding
   * an index and a generation from an earlier build finds nothing.
   */
  class BindingTable {
    var bindings: seq<FieldBinding>
    var bindingGeneration: nat

    /** No binding belongs to a generation that has not started yet. */
    predicate Valid()
      reads this
    {
      forall k :: 0 <= k < |bindings| ==> bindings[k].generation <= bindingGeneration
    }

    constructor ()
      ensures Valid() && bindings == [] && bindingGeneration == 0
    {
      bindings := [];
      bindingGeneration := 0;
    }

    /** ResolveLiveBinding: the binding at the index, when the generation is the current one and the binding belongs to it. */
    function ResolveLiveBinding(index: nat, generation: nat): (r: Option<nat>)
      reads this
      ensures r.Some? <==> generation == bindingGeneration && index < |bindings| && bindings[index].generation == generation
      ensures r.Some? ==> r.value == index
    {
      if generation != bindingGeneration || index >= |bindings| then None
      else if bindings[index].generation != generation then None
      else Some(index)
    }

    /** ClearObject: a new generation and no bindings. */
    method ClearObject()
      requires Valid()
      modifies this
      ensures Valid()
      ensures bindingGeneration == old(bindingGeneration) + 1 && bindings == []
      ensures forall i, g :: ResolveLiveBinding(i, g).None?
    {
      bindingGeneration := bindingGeneration + 1;
      bindings := [];
    }

    /**
     * The start of RebuildUi (when a context and an instance are bound and
     * no rebuild is running): a new generation, and the bindings cleared
     * once the content root has been created; when that creation fails the
     * old bindings stay, but none of them belongs to the new generation.
     */
    method BeginRebuild(contentRootCreated: bool)
      requires Valid()
      modifies this
      ensures Valid()
      ensures bindingGeneration == old(bindingGeneration) + 1
      ensures bindings == if contentRootCreated then [] else old(bindings)
      ensures forall i, g :: old(ResolveLiveBinding(i, g)).Some? ==> ResolveLiveBinding(i, g).None?
      ensures forall i :: ResolveLiveBinding(i, bindingGeneration).None?
    {
      bindingGeneration := bindingGeneration + 1;
      if contentRootCreated {
        bindings := [];
      }
    }

    /** The tail of building one field editor: the binding joins the current generation at the next index. */
    method AddBinding(fieldType: TypeId, readOnly: bool) returns (index: nat)
      requires Valid()
      modifies this
      ensures Valid()
      ensures index == |old(bindings)| && bindings == old(bindings) + [FieldBinding(fieldType, readOnly, bindingGeneration)]
      ensures bindingGeneration == old(bindingGeneration)
      ensures ResolveLiveBinding(index, bindingGeneration) == Some(index)
      ensures forall i, g :: i != index ==> ResolveLiveBinding(i, g) == old(ResolveLiveBinding(i, g))
    {
      index := |bindings|;
      bindings := bindings + [FieldBinding(fieldType, readOnly, bindingGeneration)];
    }
  }
}
