/** The encodings a log line is made of: percent-encoding, base64, fields between bars, lines. */
module Text {
  import opened Ordering
  import opened Collections

  /** A byte string as text, one character a byte. */
  function ToText(b: Bytes): string
  {
    seq(|b|, i requires 0 <= i < |b| => b[i] as char)
  }

  function FromText(s: string): Bytes
  {
    seq(|s|, i requires 0 <= i < |s| => s[i] as int % 256)
  }

  lemma FromToText(b: Bytes)
    ensures FromText(ToText(b)) == b
  {
  }

  /** Neither a field separator nor the end of a line. */
  predicate Plain(s: string)
  {
    forall c :: c in s ==> c != '|' && c != '\n'
  }

  /** Nor a carriage return, of which the line scanner takes one off at the end of a line. */
  predicate Clean(s: string)
  {
    Plain(s) && '\r' !in s
  }

  // ----- percent-encoding (section 2.1 of RFC 3986), as for a path segment -----

  predicate Literal(b: Byte)
  {
    || 65 <= b <= 90 || 97 <= b <= 122 || 48 <= b <= 57
    || b in [45, 95, 46, 126, 36, 38, 43, 58, 61, 64]      // - _ . ~ $ & + : = @
  }

  function Hex(n: nat): (c: char)
    requires n < 16
    ensures c != '|' && c != '\n' && c != '\r'
  {
    if n < 10 then (48 + n) as char else (55 + n) as char
  }

  /** Either case. */
  function UnHex(c: char): Option<nat>
  {
    if '0' <= c <= '9' then Some(c as int - 48)
    else if 'A' <= c <= 'F' then Some(c as int - 55)
    else if 'a' <= c <= 'f' then Some(c as int - 87)
    else None
  }

  lemma UnHexHex(n: nat)
    requires n < 16
    ensures UnHex(Hex(n)) == Some(n)
  {
  }

  function EscapedByte(b: Byte): string
  {
    if Literal(b) then [b as char] else ['%', Hex(b / 16), Hex(b % 16)]
  }

  function Escape(b: Bytes): string
  {
    if b == [] then "" else EscapedByte(b[0]) + Escape(b[1..])
  }

  /** A percent sign that does not start an escape is an error. */
  function Unescape(s: string): Option<Bytes>
  {
    if s == "" then Some([])
    else if s[0] == '%' then
      if |s| < 3 || UnHex(s[1]).None? || UnHex(s[2]).None? then None
      else
        var rest := Unescape(s[3..]);
        if rest.None? then None else Some([(16 * UnHex(s[1]).value + UnHex(s[2]).value) % 256] + rest.value)
    else
      var rest := Unescape(s[1..]);
      if rest.None? then None else Some([s[0] as int % 256] + rest.value)
  }

  lemma UnescapeLiteral(c: char, t: string)
    requires c != '%'
    ensures Unescape([c] + t) == if Unescape(t).None? then None else Some([c as int % 256] + Unescape(t).value)
  {
    hide UnHex;
    assert ([c] + t)[1..] == t;
  }

  lemma UnescapeHex(h: nat, l: nat, t: string)
    requires h < 16 && l < 16
    ensures Unescape(['%', Hex(h), Hex(l)] + t) == if Unescape(t).None? then None else Some([16 * h + l] + Unescape(t).value)
  {
    hide Hex, UnHex;
    UnHexHex(h);
    UnHexHex(l);
    assert (['%', Hex(h), Hex(l)] + t)[3..] == t;
  }

  lemma LiteralIsClean(b: Byte)
    requires Literal(b)
    ensures var c := b as char; c != '%' && c != '|' && c != '\n' && c != '\r' && c as int == b
  {
  }

  lemma UnescapeByte(b: Byte, t: string)
    ensures Unescape(EscapedByte(b) + t) == if Unescape(t).None? then None else Some([b] + Unescape(t).value)
    ensures Clean(EscapedByte(b))
  {
    hide Literal, Hex, Unescape;
    if Literal(b) {
      LiteralIsClean(b);
      UnescapeLiteral(b as char, t);
    } else {
      UnescapeHex(b / 16, b % 16, t);
    }
  }

  lemma {:induction false} UnescapeEscape(b: Bytes)
    ensures Unescape(Escape(b)) == Some(b)
    ensures Clean(Escape(b))
  {
    hide EscapedByte, Unescape;
    if b != [] {
      UnescapeEscape(b[1..]);
      UnescapeByte(b[0], Escape(b[1..]));
      assert b == [b[0]] + b[1..];
    } else {
      UnescapeNothing();
    }
  }

  /** Byte by byte: letters, digits and some marks stand for themselves, any other is a percent sign and two digits. */
  lemma EscapeOne(b: Byte)
    ensures var c := b as char;
      var same := 'A' <= c <= 'Z' || 'a' <= c <= 'z' || '0' <= c <= '9' || c in {'-', '_', '.', '~', '$', '&', '+', ':', '=', '@'};
      Escape([b]) == if same then [c] else ['%', "0123456789ABCDEF"[b / 16], "0123456789ABCDEF"[b % 16]]
  {
    assert [b][1..] == [] && Escape([]) == "" && Escape([b]) == EscapedByte(b) + "";
    HexIsAlphabet(b / 16);
    HexIsAlphabet(b % 16);
  }

  lemma HexIsAlphabet(n: nat)
    requires n < 16
    ensures Hex(n) == "0123456789ABCDEF"[n]
  {
  }

  lemma {:induction false} EscapeConcat(a: Bytes, b: Bytes)
    ensures Escape(a + b) == Escape(a) + Escape(b)
  {
    hide EscapedByte;
    if a == [] {
      assert a + b == b && Escape(a) + Escape(b) == Escape(b);
    } else {
      EscapeConcat(a[1..], b);
      assert (a + b)[1..] == a[1..] + b && (a + b)[0] == a[0];
      Concat(EscapedByte(a[0]), Escape(a[1..]), Escape(b));
    }
  }

  lemma UnescapeNothing()
    ensures Unescape("") == Some([])
  {
  }

  // ----- base64 (section 4 of RFC 4648), with padding -----

  function Digit(n: nat): (c: char)
    requires n < 64
    ensures c != '|' && c != '\n' && c != '\r' && c != '='
  {
    if n < 26 then (65 + n) as char
    else if n < 52 then (71 + n) as char
    else if n < 62 then (n - 4) as char
    else if n == 62 then '+'
    else '/'
  }

  /** The capital letters, the small ones, the digits, plus and slash, each run in its order. */
  lemma DigitsInOrder(n: nat)
    ensures Digit(0) == 'A' && Digit(25) == 'Z' && Digit(26) == 'a' && Digit(51) == 'z' && Digit(52) == '0' && Digit(61) == '9'
    ensures Digit(62) == '+' && Digit(63) == '/'
    ensures n < 61 && n != 25 && n != 51 ==> Digit(n + 1) as int == Digit(n) as int + 1
  {
  }

  function UnDigit(c: char): (n: Option<nat>)
    ensures n.Some? ==> n.value < 64
  {
    if 'A' <= c <= 'Z' then Some(c as int - 65)
    else if 'a' <= c <= 'z' then Some(c as int - 71)
    else if '0' <= c <= '9' then Some(c as int + 4)
    else if c == '+' then Some(62)
    else if c == '/' then Some(63)
    else None
  }

  lemma UnDigitDigit(n: nat)
    requires n < 64
    ensures UnDigit(Digit(n)) == Some(n)
  {
  }

  function Base64(b: Bytes): string
  {
    if |b| == 0 then ""
    else if |b| == 1 then [Digit(b[0] / 4), Digit(b[0] % 4 * 16), '=', '=']
    else if |b| == 2 then [Digit(b[0] / 4), Digit(b[0] % 4 * 16 + b[1] / 16), Digit(b[1] % 16 * 4), '=']
    else
      [Digit(b[0] / 4), Digit(b[0] % 4 * 16 + b[1] / 16), Digit(b[1] % 16 * 4 + b[2] / 64), Digit(b[2] % 64)] +
      Base64(b[3..])
  }

  /** Three bytes are four digits of the same number, highest first. One or two are filled up with zero bits, and the
      digits that hold none of theirs are equal signs. */
  lemma Base64Means(b: Bytes) returns (p: nat, q: nat, r: nat, s: nat)
    requires b != []
    ensures p < 64 && q < 64 && r < 64 && s < 64
    ensures var x: int, y: int, z: int := b[0], if |b| > 1 then b[1] else 0, if |b| > 2 then b[2] else 0;
      65536 * x + 256 * y + z == 262144 * p + 4096 * q + 64 * r + s
    ensures Base64(b) == [Digit(p), Digit(q)] + (if |b| > 1 then [Digit(r)] else "=") + (if |b| > 2 then [Digit(s)] else "=") +
      if |b| > 3 then Base64(b[3..]) else ""
  {
    hide Digit;
    var x: int, y: int, z: int := b[0], if |b| > 1 then b[1] else 0, if |b| > 2 then b[2] else 0;
    p, q, r, s := x / 4, x % 4 * 16 + y / 16, y % 16 * 4 + z / 64, z % 64;
    assert x == 4 * (x / 4) + x % 4 && y == 16 * (y / 16) + y % 16 && z == 64 * (z / 64) + z % 64;
    if |b| == 3 {
      assert b[3..] == [];
    }
  }

  /** Padding ends the text; the bits it leaves over are not looked at. */
  function UnBase64(s: string): Option<Bytes>
  {
    if s == "" then Some([])
    else if |s| < 4 || UnDigit(s[0]).None? || UnDigit(s[1]).None? then None
    else
      var p, q := UnDigit(s[0]).value, UnDigit(s[1]).value;
      if s[2] == '=' then if |s| == 4 && s[3] == '=' then Some([p * 4 + q / 16]) else None
      else if UnDigit(s[2]).None? then None
      else
        var r := UnDigit(s[2]).value;
        if s[3] == '=' then if |s| == 4 then Some([p * 4 + q / 16, q % 16 * 16 + r / 4]) else None
        else if UnDigit(s[3]).None? then None
        else
          var rest := UnBase64(s[4..]);
          if rest.None? then None
          else Some([p * 4 + q / 16, q % 16 * 16 + r / 4, r % 4 * 64 + UnDigit(s[3]).value] + rest.value)
  }

  lemma ThreeBytes(a: Byte, b: Byte, c: Byte)
    ensures var p, q, r, s := a / 4, a % 4 * 16 + b / 16, b % 16 * 4 + c / 64, c % 64;
      && p < 64 && q < 64 && r < 64 && s < 64
      && p * 4 + q / 16 == a && q % 16 * 16 + r / 4 == b && r % 4 * 64 + s == c
  {
  }

  lemma FourDigits(p: nat, q: nat, r: nat, s: nat, t: string)
    requires p < 64 && q < 64 && r < 64 && s < 64
    ensures UnBase64([Digit(p), Digit(q), Digit(r), Digit(s)] + t) ==
      if UnBase64(t).None? then None
      else Some([p * 4 + q / 16, q % 16 * 16 + r / 4, r % 4 * 64 + s] + UnBase64(t).value)
    ensures UnBase64([Digit(p), Digit(q), Digit(r), '=']) == Some([p * 4 + q / 16, q % 16 * 16 + r / 4])
    ensures UnBase64([Digit(p), Digit(q), '=', '=']) == Some([p * 4 + q / 16])
  {
    hide Digit, UnDigit;
    UnDigitDigit(p);
    UnDigitDigit(q);
    UnDigitDigit(r);
    UnDigitDigit(s);
    assert ([Digit(p), Digit(q), Digit(r), Digit(s)] + t)[4..] == t;
  }

  lemma {:induction false} UnBase64Base64(b: Bytes)
    ensures UnBase64(Base64(b)) == Some(b)
    ensures Clean(Base64(b))
  {
    hide Digit, UnBase64;
    if |b| >= 3 {
      UnBase64Base64(b[3..]);
      ThreeBytes(b[0], b[1], b[2]);
      FourDigits(b[0] / 4, b[0] % 4 * 16 + b[1] / 16, b[1] % 16 * 4 + b[2] / 64, b[2] % 64, Base64(b[3..]));
      assert b == [b[0], b[1], b[2]] + b[3..];
    } else if |b| == 2 {
      ThreeBytes(b[0], b[1], 0);
      FourDigits(b[0] / 4, b[0] % 4 * 16 + b[1] / 16, b[1] % 16 * 4, 0, "");
      assert b == [b[0], b[1]];
    } else if |b| == 1 {
      ThreeBytes(b[0], 0, 0);
      FourDigits(b[0] / 4, b[0] % 4 * 16, 0, 0, "");
      assert b == [b[0]];
    } else {
      UnBase64Nothing();
    }
  }

  lemma UnBase64Nothing()
    ensures UnBase64("") == Some([])
  {
  }

  // ----- fields and lines -----

  function Join(fields: seq<string>, c: char): string
    requires fields != []
  {
    if |fields| == 1 then fields[0] else fields[0] + [c] + Join(fields[1..], c)
  }

  lemma JoinMeans(field: string, rest: seq<string>, c: char)
    ensures Join([field], c) == field
    ensures rest != [] ==> Join([field] + rest, c) == field + [c] + Join(rest, c)
  {
    assert ([field] + rest)[1..] == rest;
  }

  /** The pieces between the separators; one piece when there is none. */
  function Split(s: string, c: char): (pieces: seq<string>)
    ensures pieces != []
  {
    if s == "" then [""]
    else
      var rest := Split(s[1..], c);
      if s[0] == c then [""] + rest else [[s[0]] + rest[0]] + rest[1..]
  }

  lemma {:induction false} SplitAfter(s: string, t: string, c: char)
    requires c !in s
    ensures Split(s + [c] + t, c) == [s] + Split(t, c)
  {
    var all := s + [c] + t;
    if s == "" {
      assert all[1..] == t;
    } else {
      SplitAfter(s[1..], t, c);
      assert all[1..] == s[1..] + [c] + t && all[0] == s[0];
      assert s == [s[0]] + s[1..];
      assert ([s[1..]] + Split(t, c))[1..] == Split(t, c);
    }
  }

  lemma {:induction false} SplitNone(s: string, c: char)
    requires c !in s
    ensures Split(s, c) == [s]
  {
    if s != "" {
      SplitNone(s[1..], c);
      assert s == [s[0]] + s[1..];
    }
  }

  /** Splitting gives the fields back when none of them holds the separator. */
  lemma {:induction false} SplitJoin(fields: seq<string>, c: char)
    requires fields != [] && forall f :: f in fields ==> c !in f
    ensures Split(Join(fields, c), c) == fields
  {
    assert fields[0] in fields;
    if |fields| == 1 {
      SplitNone(fields[0], c);
    } else {
      forall f | f in fields[1..] ensures c !in f {
        assert f in fields;
      }
      SplitJoin(fields[1..], c);
      SplitAfter(fields[0], Join(fields[1..], c), c);
      assert fields == [fields[0]] + fields[1..];
    }
  }

  lemma {:induction false} JoinPlain(fields: seq<string>)
    requires fields != [] && forall f :: f in fields ==> Plain(f)
    ensures '\n' !in Join(fields, '|')
    ensures EndsInReturn(Join(fields, '|')) == EndsInReturn(fields[|fields| - 1])
  {
    assert Plain(fields[0]);
    if |fields| > 1 {
      forall f | f in fields[1..] ensures Plain(f) {
        assert f in fields;
      }
      JoinPlain(fields[1..]);
      var rest := Join(fields[1..], '|');
      assert rest == "" ==> fields[|fields| - 1] == "";
    }
  }

  predicate EndsInReturn(s: string)
  {
    s != "" && s[|s| - 1] == '\r'
  }

  function DropReturn(s: string): string
  {
    if EndsInReturn(s) then s[..|s| - 1] else s
  }

  /** Lines one after the other, each ended by a newline. */
  function File(lines: seq<string>): string
  {
    if lines == [] then "" else lines[0] + ['\n'] + File(lines[1..])
  }

  lemma FileMeans(line: string, rest: seq<string>)
    ensures File([]) == "" && File([line] + rest) == line + "\n" + File(rest)
  {
    assert ([line] + rest)[1..] == rest;
  }

  /** What a line scanner reads: an empty last piece is no line, and a line goes without its carriage return. */
  function Scanned(file: string): seq<string>
  {
    var pieces := Split(file, '\n');
    Unreturned(if pieces[|pieces| - 1] == "" then pieces[..|pieces| - 1] else pieces)
  }

  function Unreturned(lines: seq<string>): (r: seq<string>)
    ensures |r| == |lines| && forall i :: 0 <= i < |lines| ==> r[i] == DropReturn(lines[i])
  {
    seq(|lines|, i requires 0 <= i < |lines| => DropReturn(lines[i]))
  }

  lemma {:induction false} SplitFile(lines: seq<string>)
    requires forall l :: l in lines ==> '\n' !in l
    ensures Split(File(lines), '\n') == lines + [""]
  {
    if lines != [] {
      assert lines[0] in lines;
      forall l | l in lines[1..] ensures '\n' !in l {
        assert l in lines;
      }
      SplitFile(lines[1..]);
      SplitAfter(lines[0], File(lines[1..]), '\n');
      assert lines == [lines[0]] + lines[1..];
      assert [lines[0]] + (lines[1..] + [""]) == [lines[0]] + lines[1..] + [""];
    }
  }

  /** The lines read back just when none of them ends in a carriage return. */
  lemma ScannedFile(lines: seq<string>)
    requires forall l :: l in lines ==> '\n' !in l
    ensures Scanned(File(lines)) == Unreturned(lines)
    ensures Scanned(File(lines)) == lines <==> forall l :: l in lines ==> !EndsInReturn(l)
  {
    SplitFile(lines);
    assert (lines + [""])[..|lines|] == lines;
    if Unreturned(lines) == lines {
      forall l | l in lines ensures !EndsInReturn(l) {
        var i :| 0 <= i < |lines| && lines[i] == l;
        assert Unreturned(lines)[i] == lines[i];
      }
    }
  }
}
