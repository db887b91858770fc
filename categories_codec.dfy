/**
 * The text stored in the `categories` column: a JSON array whose elements are
 * strings or `null` (what `JSON.stringify` writes for a missing category).
 * Encoding escapes `"`, `\` and the control characters as `JSON.stringify`
 * does. Decoding accepts that syntax with every JSON string escape, refuses a
 * raw control character inside a string as `JSON.parse` does, and fails on
 * white space between the tokens and on any other kind of JSON value.
 */
module CategoriesCodec {
  import opened Wrappers

  type Category = Option<string>

  // ---------------------------------------------------------------------------
  // Encoding (`JSON.stringify`)

  const Backspace: char := 8 as char
  const FormFeed: char := 12 as char

  /** The letter of a control character's two-character escape, for those that have one. */
  function ShortEscape(c: char): Option<char> {
    if c == Backspace then Some('b')
    else if c == '\t' then Some('t')
    else if c == '\n' then Some('n')
    else if c == FormFeed then Some('f')
    else if c == '\r' then Some('r')
    else None
  }

  /** A lower-case hexadecimal digit. */
  function HexDigit(n: nat): (c: char)
    requires n < 16
    ensures ' ' <= c
  {
    if n < 10 then ('0' as int + n) as char else ('a' as int + n - 10) as char
  }

  /**
   * One character of a string literal: `"` and `\` after a backslash, a
   * control character as its two-character escape or else as `\u00XX`, and
   * any other character as itself.
   */
  function EscapeChar(c: char): (r: string)
    ensures |r| > 0 && Printable(r)
  {
    if c == '"' || c == '\\' then ['\\', c]
    else if ShortEscape(c).Some? then ['\\', ShortEscape(c).value]
    else if c < ' ' then ['\\', 'u', '0', '0', HexDigit(c as int / 16), HexDigit(c as int % 16)]
    else [c]
  }

  /** The body of a string literal: no raw control character is left in it. */
  function Escape(s: string): (r: string)
    ensures Printable(r)
  {
    if s == [] then []
    else
      PrintableAppend(EscapeChar(s[0]), Escape(s[1..]));
      EscapeChar(s[0]) + Escape(s[1..])
  }

  /** Every character of `s` is printable, none of them a raw control character. */
  predicate Printable(s: string) {
    forall i :: 0 <= i < |s| ==> ' ' <= s[i]
  }

  lemma PrintableAppend(a: string, b: string)
    requires Printable(a) && Printable(b)
    ensures Printable(a + b)
  {
    assert forall i :: |a| <= i < |a + b| ==> (a + b)[i] == b[i - |a|];
  }

  function EncodeItem(x: Category): (r: string)
    ensures Printable(r)
  {
    match x
    case None => "null"
    case Some(s) =>
      PrintableAppend("\"", Escape(s));
      PrintableAppend("\"" + Escape(s), "\"");
      "\"" + Escape(s) + "\""
  }

  /** The items separated by commas, without brackets. */
  function EncodeItems(xs: seq<Category>): (r: string)
    ensures Printable(r)
  {
    if xs == [] then ""
    else if |xs| == 1 then EncodeItem(xs[0])
    else
      PrintableAppend(EncodeItem(xs[0]), ",");
      PrintableAppend(EncodeItem(xs[0]) + ",", EncodeItems(xs[1..]));
      EncodeItem(xs[0]) + "," + EncodeItems(xs[1..])
  }

  /** The stored text: a bracketed array with no raw control character in it. */
  function Encode(xs: seq<Category>): (r: string)
    ensures |r| >= 2 && r[0] == '[' && r[|r| - 1] == ']'
    ensures Printable(r)
  {
    PrintableAppend("[", EncodeItems(xs));
    PrintableAppend("[" + EncodeItems(xs), "]");
    "[" + EncodeItems(xs) + "]"
  }

  // ---------------------------------------------------------------------------
  // Decoding (`JSON.parse`)

  /** The character a backslash followed by this letter stands for (`\/` included). */
  function ShortUnescape(e: char): Option<char> {
    if e == '"' || e == '\\' || e == '/' then Some(e)
    else if e == 'b' then Some(Backspace)
    else if e == 't' then Some('\t')
    else if e == 'n' then Some('\n')
    else if e == 'f' then Some(FormFeed)
    else if e == 'r' then Some('\r')
    else None
  }

  /** The value of a hexadecimal digit of either case. */
  function HexValue(c: char): (r: Option<nat>)
    ensures r.Some? ==> r.value < 16
  {
    if '0' <= c <= '9' then Some(c as int - '0' as int)
    else if 'a' <= c <= 'f' then Some(c as int - 'a' as int + 10)
    else if 'A' <= c <= 'F' then Some(c as int - 'A' as int + 10)
    else None
  }

  /** The value of four hexadecimal digits. */
  function HexValue4(s: string): (r: Option<nat>)
    requires |s| == 4
    ensures r.Some? ==> r.value < 0x1_0000
  {
    match (HexValue(s[0]), HexValue(s[1]), HexValue(s[2]), HexValue(s[3]))
    case (Some(a), Some(b), Some(c), Some(d)) => Some(((a * 16 + b) * 16 + c) * 16 + d)
    case _ => None
  }

  /**
   * The escape after a backslash: the character it stands for and how many
   * characters it takes. A `\u` escape of half a surrogate pair is not decoded.
   */
  function Unescape(t: string): (r: Option<(char, nat)>)
    ensures r.Some? ==> 1 <= r.value.1 <= |t|
  {
    if t == [] then None
    else if ShortUnescape(t[0]).Some? then Some((ShortUnescape(t[0]).value, 1))
    else if t[0] == 'u' && |t| >= 5 then
      match HexValue4(t[1..5])
      case Some(v) => if v < 0xD800 || 0xDFFF < v then Some((v as char, 5)) else None
      case None => None
    else None
  }

  /**
   * The body of a string literal up to its closing quote: the value and the
   * text after the quote. A raw control character is refused.
   */
  function ParseChars(s: string): (r: Option<(string, string)>)
    ensures r.Some? ==> |r.value.1| < |s| && r.value.1 == s[|s| - |r.value.1|..]
  {
    if s == [] then None
    else if s[0] == '"' then Some(([], s[1..]))
    else if s[0] == '\\' then
      match Unescape(s[1..])
      case None => None
      case Some((c, n)) =>
        match ParseChars(s[1 + n..])
        case None => None
        case Some((v, rest)) => Some(([c] + v, rest))
    else if s[0] < ' ' then None
    else
      match ParseChars(s[1..])
      case None => None
      case Some((v, rest)) => Some(([s[0]] + v, rest))
  }

  function ParseItem(s: string): (r: Option<(Category, string)>)
    ensures r.Some? ==> |r.value.1| < |s| && r.value.1 == s[|s| - |r.value.1|..]
  {
    if |s| >= 4 && s[..4] == "null" then Some((None, s[4..]))
    else if s != [] && s[0] == '"' then
      match ParseChars(s[1..])
      case None => None
      case Some((v, rest)) => Some((Some(v), rest))
    else None
  }

  /** One or more items separated by commas and closed by `]`; returns the items and the text after `]`. */
  function ParseItems(s: string): (r: Option<(seq<Category>, string)>)
    decreases |s|
    ensures r.Some? ==> |r.value.1| < |s| && r.value.1 == s[|s| - |r.value.1|..]
    ensures r.Some? ==> s[|s| - |r.value.1| - 1] == ']'
  {
    match ParseItem(s)
    case None => None
    case Some((x, rest)) =>
      if rest != [] && rest[0] == ']' then Some(([x], rest[1..]))
      else if rest != [] && rest[0] == ',' then
        match ParseItems(rest[1..])
        case None => None
        case Some((xs, after)) => Some(([x] + xs, after))
      else None
  }

  /**
   * `JSON.parse` of the stored text: `[]` is the empty list, and only text
   * that opens with `[` and closes with `]` decodes.
   */
  function Decode(s: string): (r: Option<seq<Category>>)
    ensures s == "[]" ==> r == Some([])
    ensures r.Some? ==> |s| >= 2 && s[0] == '[' && s[|s| - 1] == ']'
  {
    if s == "[]" then Some([])
    else if s != [] && s[0] == '[' then
      match ParseItems(s[1..])
      case Some((xs, rest)) => if rest == [] then Some(xs) else None
      case None => None
    else None
  }

  // ---------------------------------------------------------------------------
  // Round trip

  lemma Regroup3(a: string, b: string, c: string)
    ensures a + b + c == a + (b + c)
  {
  }

  lemma Regroup4(a: string, b: string, c: string, d: string)
    ensures a + b + c + d == a + (b + c + d)
  {
  }

  lemma Regroup5(a: string, b: string, c: string, d: string, e: string)
    ensures a + b + c + d + e == a + (b + (c + d + e))
  {
  }

  /** One parsing step over a string literal's body: the closing quote. */
  lemma ParseCharsClose(s: string)
    requires s != [] && s[0] == '"'
    ensures ParseChars(s) == Some(([], s[1..]))
  {
  }

  /** A hexadecimal digit reads back as its value. */
  lemma HexRoundTrip(n: nat)
    requires n < 16
    ensures HexValue(HexDigit(n)) == Some(n)
  {
  }

  /** The escape written for a character reads back as that character, consuming the whole escape. */
  lemma UnescapeEscapeChar(c: char, s: string)
    requires |EscapeChar(c)| > 1
    ensures EscapeChar(c)[0] == '\\'
    ensures Unescape(EscapeChar(c)[1..] + s) == Some((c, |EscapeChar(c)| - 1))
  {
    var t := EscapeChar(c)[1..] + s;
    if c == '"' || c == '\\' {
      assert t[0] == c;
    } else if ShortEscape(c).Some? {
      assert t[0] == ShortEscape(c).value;
    } else {
      var hi, lo := c as int / 16, c as int % 16;
      HexRoundTrip(hi);
      HexRoundTrip(lo);
      assert HexValue4(t[1..5]) == Some(hi * 16 + lo) by {
        assert t[1..5] == ['0', '0', HexDigit(hi), HexDigit(lo)];
      }
      assert t[0] == 'u';
    }
  }

  /** One parsing step over a string literal's body: a backslash escape. */
  lemma ParseCharsEscaped(c: char, s: string, v: string, rest: string)
    requires |EscapeChar(c)| > 1
    requires ParseChars(s) == Some((v, rest))
    ensures ParseChars(EscapeChar(c) + s) == Some(([c] + v, rest))
  {
    var e := EscapeChar(c);
    var t := e + s;
    UnescapeEscapeChar(c, s);
    assert t[0] == '\\' && t[1..] == e[1..] + s;
    assert t[1 + (|e| - 1)..] == s;
  }

  /** One parsing step over a string literal's body: a character written as itself. */
  lemma ParseCharsPlain(c: char, s: string, v: string, rest: string)
    requires EscapeChar(c) == [c]
    requires ParseChars(s) == Some((v, rest))
    ensures ParseChars([c] + s) == Some(([c] + v, rest))
  {
    assert ([c] + s)[1..] == s;
  }

  lemma {:induction false} ParseCharsEscape(v: string, rest: string)
    ensures ParseChars(Escape(v) + "\"" + rest) == Some((v, rest))
  {
    if v == [] {
      var t := "\"" + rest;
      assert Escape(v) + "\"" + rest == t;
      ParseCharsClose(t);
      assert t[1..] == rest;
    } else {
      ParseCharsEscape(v[1..], rest);
      var t := Escape(v[1..]) + "\"" + rest;
      var e := EscapeChar(v[0]);
      assert Escape(v) == e + Escape(v[1..]);
      Regroup4(e, Escape(v[1..]), "\"", rest);
      if |e| > 1 {
        ParseCharsEscaped(v[0], t, v[1..], rest);
      } else {
        assert e == [v[0]];
        ParseCharsPlain(v[0], t, v[1..], rest);
      }
      assert [v[0]] + v[1..] == v;
    }
  }

  /** `null` followed by anything. */
  lemma ParseNull(rest: string)
    ensures ParseItem("null" + rest) == Some((None, rest))
  {
    var s := "null" + rest;
    assert s[..4] == "null" && s[4..] == rest;
  }

  /** A quoted string followed by anything. */
  lemma ParseQuoted(v: string, rest: string)
    ensures ParseItem("\"" + Escape(v) + "\"" + rest) == Some((Some(v), rest))
  {
    var s := "\"" + Escape(v) + "\"" + rest;
    var t := Escape(v) + "\"" + rest;
    Regroup4("\"", Escape(v), "\"", rest);
    assert s == ['"'] + t;
    assert s[0] == '"' && s[1..] == t;
    assert |s| < 4 || s[..4] != "null" by {
      if |s| >= 4 {
        assert s[..4][0] == '"';
      }
    }
    ParseCharsEscape(v, rest);
  }

  lemma ParseItemEncode(x: Category, rest: string)
    ensures ParseItem(EncodeItem(x) + rest) == Some((x, rest))
  {
    match x
    case None =>
      ParseNull(rest);
    case Some(v) =>
      ParseQuoted(v, rest);
  }

  /** One parsing step over the items: the last item, then `]`. */
  lemma ParseItemsClose(s: string, x: Category, rest: string)
    requires ParseItem(s) == Some((x, rest)) && rest != [] && rest[0] == ']'
    ensures ParseItems(s) == Some(([x], rest[1..]))
  {
  }

  /** One parsing step over the items: an item, then `,` and the remaining items. */
  lemma ParseItemsComma(s: string, x: Category, rest: string, xs: seq<Category>, after: string)
    requires ParseItem(s) == Some((x, rest)) && rest != [] && rest[0] == ','
    requires ParseItems(rest[1..]) == Some((xs, after))
    ensures ParseItems(s) == Some(([x] + xs, after))
  {
  }

  lemma {:induction false} ParseItemsEncode(xs: seq<Category>, rest: string)
    requires xs != []
    ensures ParseItems(EncodeItems(xs) + "]" + rest) == Some((xs, rest))
  {
    if |xs| == 1 {
      ParseLastItem(xs[0], rest);
      assert [xs[0]] == xs;
    } else {
      ParseItemsEncode(xs[1..], rest);
      ParseNextItem(xs[0], xs[1..], rest);
      assert [xs[0]] + xs[1..] == xs;
    }
  }

  /** The last item is followed by the closing bracket. */
  lemma ParseLastItem(x: Category, rest: string)
    ensures ParseItems(EncodeItems([x]) + "]" + rest) == Some(([x], rest))
  {
    var r := "]" + rest;
    assert EncodeItems([x]) == EncodeItem(x);
    Regroup3(EncodeItem(x), "]", rest);
    ParseItemEncode(x, r);
    assert r[0] == ']' && r[1..] == rest;
    ParseItemsClose(EncodeItem(x) + r, x, r);
  }

  /** An item followed by a comma is followed by the remaining items. */
  lemma ParseNextItem(x: Category, xs: seq<Category>, rest: string)
    requires xs != []
    requires ParseItems(EncodeItems(xs) + "]" + rest) == Some((xs, rest))
    ensures ParseItems(EncodeItems([x] + xs) + "]" + rest) == Some(([x] + xs, rest))
  {
    var tail := EncodeItems(xs) + "]" + rest;
    var r := "," + tail;
    assert EncodeItems([x] + xs) == EncodeItem(x) + "," + EncodeItems(xs) by {
      assert ([x] + xs)[0] == x && ([x] + xs)[1..] == xs;
    }
    Regroup5(EncodeItem(x), ",", EncodeItems(xs), "]", rest);
    ParseItemEncode(x, r);
    assert r[0] == ',' && r[1..] == tail;
    ParseItemsComma(EncodeItem(x) + r, x, r, xs, rest);
  }

  /** What the create and update handlers store decodes back to the same categories. */
  lemma DecodeEncode(xs: seq<Category>)
    ensures Decode(Encode(xs)) == Some(xs)
  {
    var s := Encode(xs);
    if xs == [] {
      assert s == "[]";
    } else {
      var e := EncodeItems(xs);
      assert |EncodeItem(xs[0])| >= 2;
      assert |e| >= 2;
      Regroup3("[", e, "]");
      assert s[0] == '[' && s[1..] == e + "]";
      assert e + "]" + "" == e + "]";
      ParseItemsEncode(xs, "");
    }
  }

  /**
   * A raw control character inside a stored string, after plain characters,
   * does not decode, where `JSON.parse` throws.
   */
  lemma RawControlRefused(before: string, c: char, after: string)
    requires forall i :: 0 <= i < |before| ==> ' ' <= before[i] && before[i] != '"' && before[i] != '\\'
    requires c < ' '
    ensures Decode("[\"" + before + [c] + after).None?
  {
    var s := "[\"" + before + [c] + after;
    var body := before + [c] + after;
    assert s[1..] == ['"'] + body;
    assert |s[1..]| < 4 || s[1..][..4] != "null" by {
      if |s[1..]| >= 4 {
        assert s[1..][..4][0] == '"';
      }
    }
    assert s[1..][1..] == body;
    RawControlInBody(before, c, after);
  }

  /** A string body of plain characters up to a raw control character does not parse. */
  lemma {:induction false} RawControlInBody(before: string, c: char, after: string)
    requires forall i :: 0 <= i < |before| ==> ' ' <= before[i] && before[i] != '"' && before[i] != '\\'
    requires c < ' '
    ensures ParseChars(before + [c] + after).None?
  {
    var s := before + [c] + after;
    if before == [] {
      assert s[0] == c;
    } else {
      assert s[0] == before[0];
      assert s[1..] == before[1..] + [c] + after;
      RawControlInBody(before[1..], c, after);
    }
  }
}
