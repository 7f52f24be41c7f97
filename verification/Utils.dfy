/**
 * The pure helpers of the command-line tools: the ARGB packing of canvas pixels, the
 * escaping of text for a regular expression, the sort-order flag and the choice of a
 * model loader from a format name or a file extension.
 */
module Utils {
  import opened Common

  // Case.

  /** `toLowerCase` on one character: the ASCII capitals become small letters. */
  function LowerChar(c: char): char {
    if 'A' <= c <= 'Z' then (c as int + 32) as char else c
  }

  /** `toLowerCase` on a string, character by character. */
  function Lower(s: string): (r: string)
    ensures |r| == |s|
    ensures forall i | 0 <= i < |s| :: r[i] == LowerChar(s[i])
  {
    seq(|s|, i requires 0 <= i < |s| => LowerChar(s[i]))
  }

  /** Text without capitals is its own lowercase. */
  lemma LowerKeepsSmall(s: string)
    requires forall i | 0 <= i < |s| :: !('A' <= s[i] <= 'Z')
    ensures Lower(s) == s
  {
  }

  /** `toAscending`: the flag reads "asc" once lowercased. */
  predicate ToAscending(s: string) {
    Lower(s) == "asc"
  }

  /** The flag is ascending exactly for the eight spellings of "asc" in either case. */
  lemma AscendingExactly(s: string)
    ensures ToAscending(s) <==>
      |s| == 3 && (s[0] == 'a' || s[0] == 'A') && (s[1] == 's' || s[1] == 'S') && (s[2] == 'c' || s[2] == 'C')
  {
    if |s| == 3 && (s[0] == 'a' || s[0] == 'A') && (s[1] == 's' || s[1] == 'S') && (s[2] == 'c' || s[2] == 'C') {
      assert Lower(s) == [Lower(s)[0], Lower(s)[1], Lower(s)[2]];
    }
  }

  // Escaping for a regular expression.

  /** The characters the character class of `escapeRegExp` matches. */
  predicate Special(c: char) {
    c in "-[]/{}()*+?.\\^$|"
  }

  /** `escapeRegExp`: a backslash before each special character; the rest is copied. */
  function Escape(s: string): (r: string)
    ensures |s| <= |r| <= 2 * |s|
  {
    if s == [] then []
    else (if Special(s[0]) then ['\\', s[0]] else [s[0]]) + Escape(s[1..])
  }

  /**
   * A pattern that matches only itself read literally: every special character stands
   * behind a backslash, and every backslash escapes a special character.
   */
  predicate Literal(r: string)
    decreases |r|
  {
    r == []
    || (|r| >= 2 && r[0] == '\\' && Special(r[1]) && Literal(r[2..]))
    || (!Special(r[0]) && Literal(r[1..]))
  }

  /** The text a literal pattern matches: each escaped character without its backslash. */
  function Unescape(r: string): string
    decreases |r|
  {
    if r == [] then []
    else if |r| >= 2 && r[0] == '\\' then [r[1]] + Unescape(r[2..])
    else [r[0]] + Unescape(r[1..])
  }

  /** An escaped string is a literal pattern, and the text it matches is the input. */
  lemma {:induction false} EscapeRoundTrip(s: string)
    ensures Literal(Escape(s))
    ensures Unescape(Escape(s)) == s
  {
    if s != [] {
      EscapeRoundTrip(s[1..]);
      var rest := Escape(s[1..]);
      if Special(s[0]) {
        assert Escape(s)[2..] == rest;
      } else {
        assert Escape(s)[1..] == rest;
      }
      assert s == [s[0]] + s[1..];
    }
  }

  /** Every literal pattern is the escaping of the text it matches. */
  lemma {:induction false} LiteralIsEscaped(r: string)
    requires Literal(r)
    ensures Escape(Unescape(r)) == r
    decreases |r|
  {
    if r != [] {
      if |r| >= 2 && r[0] == '\\' && Special(r[1]) && Literal(r[2..]) {
        LiteralIsEscaped(r[2..]);
        assert ([r[1]] + Unescape(r[2..]))[1..] == Unescape(r[2..]);
        assert r == ['\\', r[1]] + r[2..];
      } else {
        assert !Special(r[0]) && Literal(r[1..]);
        LiteralIsEscaped(r[1..]);
        assert ([r[0]] + Unescape(r[1..]))[1..] == Unescape(r[1..]);
        assert r == [r[0]] + r[1..];
      }
    }
  }

  /** Text without special characters is its own escaping. */
  lemma {:induction false} EscapeKeepsPlain(s: string)
    requires forall i | 0 <= i < |s| :: !Special(s[i])
    ensures Escape(s) == s
  {
    if s != [] {
      EscapeKeepsPlain(s[1..]);
    }
  }

  // Colours of canvas pixels.

  /** `ToUint32`: the value modulo 2^32. */
  function ToUint32(v: int): (r: int)
    ensures 0 <= r < 0x1_0000_0000
  {
    v % 0x1_0000_0000
  }

  /** `ToInt32`: the value modulo 2^32, read as a two's complement number. */
  function ToInt32(v: int): (r: int)
    ensures -0x8000_0000 <= r < 0x8000_0000
  {
    var u := ToUint32(v);
    if u < 0x8000_0000 then u else u - 0x1_0000_0000
  }

  /** `x << n`: both operands made 32-bit, the product wrapped to a signed 32-bit number. */
  function ShiftLeft(x: int, n: nat): int
    requires n <= 24
  {
    ToInt32(ToInt32(x) * Pow2(n))
  }

  /** `(c >> k) & 0xff`: an arithmetic shift of the signed 32-bit value, then the low byte. */
  function ShiftMask(c: int, k: nat): int
    requires k <= 24
  {
    (ToInt32(c) / Pow2(k)) % 256
  }

  /**
   * `pixelToColor(data, index)`: the red, green, blue and alpha bytes at `index` shifted
   * into place, each made unsigned before the sum; a byte past the end reads as 0.
   */
  function PixelToColor(data: seq<byte>, index: int): int {
    ToUint32(ShiftLeft(ByteOr0(data, index), 16))
    + ToUint32(ShiftLeft(ByteOr0(data, index + 1), 8))
    + ToUint32(ShiftLeft(ByteOr0(data, index + 2), 0))
    + ToUint32(ShiftLeft(ByteOr0(data, index + 3), 24))
  }

  /** The four bytes the container's sprite export writes for a colour, red first and alpha last. */
  function ColorToPixel(c: int): (p: seq<int>)
    ensures |p| == 4
  {
    [ShiftMask(c, 16), ShiftMask(c, 8), ShiftMask(c, 0), ShiftMask(c, 24)]
  }

  /** A byte shifted left by at most 24 places and made unsigned is the byte times the power. */
  lemma ShiftByte(b: byte, n: nat)
    requires n == 0 || n == 8 || n == 16 || n == 24
    ensures ToUint32(ShiftLeft(b, n)) == b * Pow2(n)
  {
    Pow2Values();
    DivModUnique(b, 0x1_0000_0000, 0, b);
    var v := b * Pow2(n);
    assert 0 <= v < 0x1_0000_0000;
    DivModUnique(v, 0x1_0000_0000, 0, v);
    if v >= 0x8000_0000 {
      DivModUnique(v - 0x1_0000_0000, 0x1_0000_0000, -1, v);
    }
  }

  /** Taking 2^32 away from `c` before dividing by `p` leaves the low byte of the quotient unchanged. */
  lemma MaskShifted(c: int, p: int, q: int)
    requires p > 0 && q * p == 0x1_0000_0000 && q % 256 == 0
    ensures ((c - 0x1_0000_0000) / p) % 256 == (c / p) % 256
  {
    DivModUnique(c - 0x1_0000_0000, p, c / p - q, c % p);
    DivModUnique(c / p - q, 256, (c / p) / 256 - q / 256, (c / p) % 256);
  }

  /** On an unsigned 32-bit value, shifting and masking the signed view yields the unsigned byte. */
  lemma ShiftMaskIsByte(c: int, k: nat)
    requires 0 <= c < 0x1_0000_0000
    requires k == 0 || k == 8 || k == 16 || k == 24
    ensures ShiftMask(c, k) == ByteOf(c, k)
  {
    Pow2Values();
    DivModUnique(c, 0x1_0000_0000, 0, c);
    if c >= 0x8000_0000 {
      assert ToInt32(c) == c - 0x1_0000_0000;
      if k == 0 {
        MaskShifted(c, 1, 0x1_0000_0000);
      } else if k == 8 {
        MaskShifted(c, 0x100, 0x100_0000);
      } else if k == 16 {
        MaskShifted(c, 0x1_0000, 0x1_0000);
      } else {
        MaskShifted(c, 0x100_0000, 0x100);
      }
    }
  }

  /** Every unsigned 32-bit value is the packing of its four bytes. */
  lemma PackBytes(c: int)
    requires 0 <= c < 0x1_0000_0000
    ensures c == Pack(ByteOf(c, 24), ByteOf(c, 16), ByteOf(c, 8), ByteOf(c, 0))
  {
    Pow2Values();
    var a, m1 := c / 0x100_0000, c % 0x100_0000;
    var r, m2 := m1 / 0x1_0000, m1 % 0x1_0000;
    var g, b := m2 / 0x100, m2 % 0x100;
    assert c == a * 0x100_0000 + r * 0x1_0000 + g * 0x100 + b;
    UnpackPack(a, r, g, b);
  }

  /** `pixelToColor` packs alpha, red, green and blue into one unsigned 32-bit colour. */
  lemma PixelToColorPacks(data: seq<byte>, index: int)
    ensures PixelToColor(data, index) ==
      Pack(ByteOr0(data, index + 3), ByteOr0(data, index), ByteOr0(data, index + 1), ByteOr0(data, index + 2))
    ensures 0 <= PixelToColor(data, index) < 0x1_0000_0000
  {
    Pow2Values();
    ShiftByte(ByteOr0(data, index), 16);
    ShiftByte(ByteOr0(data, index + 1), 8);
    ShiftByte(ByteOr0(data, index + 2), 0);
    ShiftByte(ByteOr0(data, index + 3), 24);
    UnpackPack(ByteOr0(data, index + 3), ByteOr0(data, index), ByteOr0(data, index + 1), ByteOr0(data, index + 2));
  }

  /** Writing a read pixel back gives the same four bytes. */
  lemma PixelRoundTrip(data: seq<byte>, index: int)
    requires 0 <= index && index + 4 <= |data|
    ensures ColorToPixel(PixelToColor(data, index)) == data[index..index + 4]
  {
    var c := PixelToColor(data, index);
    PixelToColorPacks(data, index);
    UnpackPack(data[index + 3], data[index], data[index + 1], data[index + 2]);
    ShiftMaskIsByte(c, 16);
    ShiftMaskIsByte(c, 8);
    ShiftMaskIsByte(c, 0);
    ShiftMaskIsByte(c, 24);
  }

  /** Reading a written pixel back gives the same unsigned colour. */
  lemma ColorRoundTrip(c: int)
    requires 0 <= c < 0x1_0000_0000
    ensures forall i | 0 <= i < 4 :: 0 <= ColorToPixel(c)[i] < 256
    ensures PixelToColor(ColorToPixel(c), 0) == c
  {
    ShiftMaskIsByte(c, 16);
    ShiftMaskIsByte(c, 8);
    ShiftMaskIsByte(c, 0);
    ShiftMaskIsByte(c, 24);
    var p: seq<byte> := [ByteOf(c, 16), ByteOf(c, 8), ByteOf(c, 0), ByteOf(c, 24)];
    assert ColorToPixel(c) == p;
    PixelToColorPacks(p, 0);
    PackBytes(c);
  }

  // Choosing a loader.

  /** The loaders of the `inputModelLoaders` object. */
  datatype Loader = ObjMatLoader

  /**
   * What the property lookup on `inputModelLoaders` yields: its own loader, or a member
   * every object inherits (the `Object` constructor, `Object.prototype`).
   */
  datatype Lookup = Own(loader: Loader) | Inherited(name: string)

  const AutoFormat := "auto"

  /** `[a-z\d_]` under the `i` flag. */
  predicate WordChar(c: char) {
    'a' <= c <= 'z' || 'A' <= c <= 'Z' || '0' <= c <= '9' || c == '_'
  }

  /** The longest run of word characters at the end of `s`. */
  function TrailingWord(s: string): (w: string)
    ensures |w| <= |s| && w == s[|s| - |w|..]
    ensures forall i | 0 <= i < |w| :: WordChar(w[i])
    ensures |w| < |s| ==> !WordChar(s[|s| - |w| - 1])
  {
    if s == [] || !WordChar(s[|s| - 1]) then []
    else TrailingWord(s[..|s| - 1]) + [s[|s| - 1]]
  }

  /**
   * `regexExtension.exec(fileName)`, group 1: the word characters after the last `.`
   * when the name ends with a `.` and at least one of them.
   */
  function Extension(s: string): Option<string> {
    var w := TrailingWord(s);
    if |w| > 0 && |w| < |s| && s[|s| - |w| - 1] == '.' then Some(w) else None
  }

  /**
   * The extension is found exactly when the name is some text, a `.` and a non-empty
   * run of word characters, and it is that run.
   */
  lemma ExtensionExactly(s: string, stem: string, e: string)
    ensures Extension(s).Some? ==> s == s[..|s| - |Extension(s).value| - 1] + ['.'] + Extension(s).value
    ensures s == stem + ['.'] + e && e != [] && (forall i | 0 <= i < |e| :: WordChar(e[i])) ==> Extension(s) == Some(e)
  {
    if Extension(s).Some? {
      var w := Extension(s).value;
      assert s == s[..|s| - |w| - 1] + [s[|s| - |w| - 1]] + s[|s| - |w|..];
    }
    if s == stem + ['.'] + e && e != [] && (forall i | 0 <= i < |e| :: WordChar(e[i])) {
      TrailingWordOf(stem + ['.'], e);
    }
  }

  /** A name ending in a non-word character and then a run of word characters has that run as its trailing word. */
  lemma {:induction false} TrailingWordOf(p: string, e: string)
    requires p != [] && !WordChar(p[|p| - 1])
    requires forall i | 0 <= i < |e| :: WordChar(e[i])
    ensures TrailingWord(p + e) == e
    decreases |e|
  {
    if e == [] {
      assert p + e == p;
    } else {
      var e' := e[..|e| - 1];
      TrailingWordOf(p, e');
      assert (p + e)[..|p + e| - 1] == p + e';
    }
  }

  /** The format to look up: the argument lowercased, or in `auto` mode the file's extension lowercased. */
  function FormatOf(formatArg: string, fileName: string): Result<string> {
    var format := Lower(formatArg);
    if format == AutoFormat then
      var ext := Extension(fileName);
      if ext.None? then Err(UnknownFormat) else Ok(Lower(ext.value))
    else Ok(format)
  }

  const UnknownFormat := "Unknown format!"

  /** The message for a format without a loader. */
  function UnknownFormatNamed(format: string): string {
    "Unknown format '" + format + "'!"
  }

  /**
   * `getLoaderFromFormat` as written: the `in` test also holds for the lowercase names
   * every object inherits, `constructor` and `__proto__`.
   */
  function GetLoaderAsWritten(formatArg: string, fileName: string): Result<Lookup> {
    var format :- FormatOf(formatArg, fileName);
    if format == "obj" then Ok(Own(ObjMatLoader))
    else if format == "constructor" || format == "__proto__" then Ok(Inherited(format))
    else Err(UnknownFormatNamed(format))
  }

  /** `getLoaderFromFormat` as evidently intended: only the object's own key `obj` names a loader. */
  function GetLoader(formatArg: string, fileName: string): Result<Loader> {
    var format :- FormatOf(formatArg, fileName);
    if format == "obj" then Ok(ObjMatLoader) else Err(UnknownFormatNamed(format))
  }

  /**
   * A loader is found exactly for the format `obj` in either case, given outright or, in
   * `auto` mode, as the file's extension; `auto` on a name without an extension is
   * refused with "Unknown format!", and any other format by name.
   */
  lemma GetLoaderExactly(formatArg: string, fileName: string)
    ensures GetLoader(formatArg, fileName).Ok? <==>
      (Lower(formatArg) == "obj"
       || (Lower(formatArg) == AutoFormat && Extension(fileName).Some? && Lower(Extension(fileName).value) == "obj"))
    ensures Lower(formatArg) == AutoFormat && Extension(fileName).None? ==>
      GetLoader(formatArg, fileName) == Err(UnknownFormat)
    ensures GetLoader(formatArg, fileName).Err? && GetLoader(formatArg, fileName).error != UnknownFormat ==>
      exists format :: format != "obj" && GetLoader(formatArg, fileName).error == UnknownFormatNamed(format)
    ensures GetLoaderAsWritten(formatArg, fileName).Ok? && GetLoaderAsWritten(formatArg, fileName).value.Own? ==>
      GetLoader(formatArg, fileName) == Ok(GetLoaderAsWritten(formatArg, fileName).value.loader)
  {
    var format := FormatOf(formatArg, fileName);
    if format.Ok? && format.value != "obj" {
      assert GetLoader(formatArg, fileName).error == UnknownFormatNamed(format.value);
    }
    if format.Err? {
      assert format.error == UnknownFormat;
    }
  }

  /** A model file named `<stem>.constructor` in `auto` mode: a loader as written, refused as intended. */
  lemma InheritedKeyCounterexample(stem: string)
    ensures GetLoaderAsWritten("auto", stem + ".constructor") == Ok(Inherited("constructor"))
    ensures GetLoader("auto", stem + ".constructor") == Err(UnknownFormatNamed("constructor"))
  {
    var e := "constructor";
    LowerKeepsSmall(AutoFormat);
    LowerKeepsSmall(e);
    assert stem + ".constructor" == stem + ['.'] + e;
    ExtensionExactly(stem + ".constructor", stem, e);
  }
}
