/** The text of a .yo file: how the assembler prints a line and how the simulators load it. */
module ObjectText {
  import opened Lists
  import opened Words
  import opened ByteMemory

  // ---------------------------------------------------------------------------------------------
  // Printing
  // ---------------------------------------------------------------------------------------------

  function HexDigit(h: nat): char
    requires h < 16
  {
    if h < 10 then '0' + h as char else 'a' + (h - 10) as char
  }

  /** The `len` least significant hexadecimal digits of a value. */
  function Hex(value: int, len: nat): (s: string)
    ensures |s| == len
    decreases len
  {
    if len == 0 then [] else Hex(value / 16, len - 1) + [HexDigit(value % 16)]
  }

  function CodeHex(bytes: Bytes): (s: string)
    ensures |s| == 2 * |bytes|
  {
    if bytes == [] then [] else Hex(bytes[0], 2) + CodeHex(bytes[1..])
  }

  function Spaces(n: nat): (s: string)
    ensures |s| == n && forall i :: 0 <= i < n ==> s[i] == ' '
  {
    seq(n, _ => ' ')
  }

  /** The address column: four digits from 0x1000 on, three and a blank below. */
  function Address(pos: int): (s: string)
    ensures |s| == 7
  {
    if pos > 0xFFF then "0x" + Hex(pos, 4) + ":" else "0x" + Hex(pos, 3) + ": "
  }

  /** The width of the code column, up to the bar that divides it from the source text. */
  function Gap(pos: int): nat { if pos > 0xFFF then 22 else 21 }

  /** A printed line with an address and at most ten code bytes. */
  function CodeLine(pos: int, bytes: Bytes, text: string): string
    requires |bytes| <= 10
  {
    Address(pos) + CodeHex(bytes) + Spaces(Gap(pos) - 2 * |bytes|) + "| " + text
  }

  /** A printed line without tokens. */
  function BlankLine(pos: int, text: string): string {
    Spaces(7 + Gap(pos)) + "| " + text
  }

  lemma HexLast(value: int, len: nat)
    requires len > 0
    ensures Hex(value, len) == Hex(value / 16, len - 1) + [HexDigit(value % 16)]
  {
  }

  /** hexstuff: digits are written from the least significant end. */
  method HexStuff(dest: array<char>, at: nat, value: int, len: nat)
    requires at + len <= dest.Length
    modifies dest
    ensures dest[..] == old(dest[..at]) + Hex(value, len) + old(dest[at + len..])
  {
    hide Hex, HexDigit;
    var rest, i := value, 0;
    ghost var before := dest[..];
    assert dest[at + len..at + len] == [] && Hex(value, len) + [] == Hex(value, len);
    while i < len
      invariant 0 <= i <= len && Hex(rest, len - i) + dest[at + len - i..at + len] == Hex(value, len)
      invariant dest[..at + len - i] == before[..at + len - i] && dest[at + len..] == before[at + len..]
    {
      var h := rest % 16;
      ghost var high, low := Hex(rest / 16, len - i - 1), dest[at + len - i..at + len];
      HexLast(rest, len - i);
      dest[at + len - i - 1] := HexDigit(h);
      rest := rest / 16;
      i := i + 1;
      assert dest[at + len - i..at + len] == [HexDigit(h)] + low;
      assert high + [HexDigit(h)] + low == high + ([HexDigit(h)] + low);
    }
    assert Hex(rest, 0) == [];
    assert Hex(rest, 0) + dest[at..at + len] == dest[at..at + len];
    assert dest[..] == dest[..at] + dest[at..at + len] + dest[at + len..];
  }

  /** Writing into the first blanks of a column. */
  lemma FillColumn(head: string, w: nat, tail: string, h: string)
    requires |h| <= w
    ensures var s := head + Spaces(w) + tail;
            s[..|head|] + h + s[|head| + |h|..] == head + h + Spaces(w - |h|) + tail
  {
  }

  lemma AddressFilled(pos: int, rest: string)
    ensures var wide := pos > 0xFFF;
            var len := if wide then 4 else 3;
            var template := (if wide then "0x0000:" else "0x000: ") + rest;
            template[..2] + Hex(pos, len) + template[2 + len..] == Address(pos) + rest
  {
    hide Hex;
    var template := (if pos > 0xFFF then "0x0000:" else "0x000: ") + rest;
    assert template[..2] == "0x";
    assert template[2 + (if pos > 0xFFF then 4 else 3)..] == (if pos > 0xFFF then ":" else ": ") + rest;
  }

  /** The template of a line with its address filled in. */
  method LineTemplate(pos: int) returns (outstring: array<char>)
    ensures fresh(outstring) && outstring[..] == Address(pos) + Spaces(Gap(pos)) + "| "
  {
    hide Hex;
    var w := Gap(pos);
    var template := (if pos > 0xFFF then "0x0000:" else "0x000: ") + Spaces(w) + "| ";
    outstring := new char[w + 9](i requires 0 <= i < w + 9 => template[i]);
    assert outstring[..] == template == (if pos > 0xFFF then "0x0000:" else "0x000: ") + (Spaces(w) + "| ");
    AddressFilled(pos, Spaces(w) + "| ");
    HexStuff(outstring, 2, pos, if pos > 0xFFF then 4 else 3);
    assert Address(pos) + (Spaces(w) + "| ") == Address(pos) + Spaces(w) + "| ";
  }

  /** print_code for a line with tokens and an address in range: the columns are filled in a template. */
  method PrintCode(pos: int, code: array<Byte>, bcount: nat, text: string) returns (line: string)
    requires bcount <= 10 && bcount <= code.Length
    ensures line == CodeLine(pos, code[..bcount], text)
  {
    hide Hex, CodeHex, Address, Spaces;
    var outstring := LineTemplate(pos);
    ghost var w := Gap(pos);
    var i := 0;
    assert Address(pos) + CodeHex(code[..0]) == Address(pos);
    while i < bcount
      invariant 0 <= i <= bcount
      invariant outstring[..] == Address(pos) + CodeHex(code[..i]) + Spaces(w - 2 * i) + "| "
    {
      ghost var head := Address(pos) + CodeHex(code[..i]);
      FillColumn(head, w - 2 * i, "| ", Hex(code[i], 2));
      HexStuff(outstring, 7 + 2 * i, code[i], 2);
      CodeHexSnoc(code[..i], code[i]);
      assert code[..i + 1] == code[..i] + [code[i]];
      assert head + Hex(code[i], 2) == Address(pos) + CodeHex(code[..i + 1]);
      i := i + 1;
    }
    line := outstring[..] + text;
  }

  lemma {:induction false} CodeHexSnoc(bytes: Bytes, b: Byte)
    ensures CodeHex(bytes + [b]) == CodeHex(bytes) + Hex(b, 2)
  {
    if bytes == [] {
      assert ([] + [b])[1..] == [];
      assert [] + Hex(b, 2) == Hex(b, 2) + [];
    } else {
      CodeHexSnoc(bytes[1..], b);
      assert (bytes + [b])[1..] == bytes[1..] + [b];
    }
  }

  // ---------------------------------------------------------------------------------------------
  // Loading
  // ---------------------------------------------------------------------------------------------

  predicate IsSpace(c: char) { c == ' ' || '\t' <= c <= '\r' }

  predicate IsXDigit(c: char) { '0' <= c <= '9' || 'a' <= c <= 'f' || 'A' <= c <= 'F' }

  function Hex2Dig(c: char): nat
    requires IsXDigit(c)
  {
    if '0' <= c <= '9' then c as int - '0' as int
    else if 'A' <= c <= 'Z' then c as int - 'A' as int + 10
    else c as int - 'a' as int + 10
  }

  lemma DigitBack(h: nat)
    requires h < 16
    ensures IsXDigit(HexDigit(h)) && Hex2Dig(HexDigit(h)) == h
  {
  }

  function SkipSpace(s: string): string {
    if s != [] && IsSpace(s[0]) then SkipSpace(s[1..]) else s
  }

  /** The number read by a run of hexadecimal digits, and what follows it. */
  function HexNumber(s: string, sofar: nat): (nat, string) {
    if s != [] && IsXDigit(s[0]) then HexNumber(s[1..], 16 * sofar + Hex2Dig(s[0])) else (sofar, s)
  }

  /** The bytes read by a run of pairs of hexadecimal digits. */
  function Pairs(s: string): Bytes {
    if |s| >= 2 && IsXDigit(s[0]) && IsXDigit(s[1])
    then [16 * Hex2Dig(s[0]) + Hex2Dig(s[1])] + Pairs(s[2..])
    else []
  }

  datatype Line = Skipped | NoColon | Code(address: nat, bytes: Bytes)

  function ParseLine(buf: string): Line {
    var s := SkipSpace(buf);
    if |s| < 2 || s[0] != '0' || (s[1] != 'x' && s[1] != 'X') then Skipped
    else
      var (address, rest) := HexNumber(s[2..], 0);
      var t := SkipSpace(rest);
      if t == [] || t[0] != ':' then NoColon else Code(address, Pairs(SkipSpace(t[1..])))
  }

  /** Memory after some lines, the number of bytes loaded, and whether the last line was accepted. */
  datatype Loaded = Loaded(m: Bytes, count: nat, ok: bool)

  /** One line. Code that runs off the end of memory is loaded up to there and then rejected. */
  function LoadLine(m: Bytes, buf: string): Loaded {
    match ParseLine(buf)
    case Skipped => Loaded(m, 0, true)
    case NoColon => Loaded(m, 0, false)
    case Code(address, bytes) =>
      var room := if address < |m| then |m| - address else 0;
      if bytes == [] then Loaded(m, 0, true)
      else if |bytes| <= room then Loaded(Splice(m, address, bytes), |bytes|, true)
      else Loaded(if room == 0 then m else Splice(m, address, bytes[..room]), room, false)
  }

  /** A whole file: a rejected line ends it. */
  function LoadLines(m: Bytes, lines: seq<string>): Loaded {
    if lines == [] then Loaded(m, 0, true)
    else
      var before := LoadLines(m, lines[..|lines| - 1]);
      if !before.ok then before
      else
        var last := LoadLine(before.m, lines[|lines| - 1]);
        Loaded(last.m, before.count + last.count, last.ok)
  }

  method SkipBlanks(buf: string, start: nat) returns (cpos: nat)
    requires start <= |buf|
    ensures cpos <= |buf| && buf[cpos..] == SkipSpace(buf[start..])
  {
    cpos := start;
    while cpos < |buf| && IsSpace(buf[cpos])
      invariant cpos <= |buf| && SkipSpace(buf[cpos..]) == SkipSpace(buf[start..])
    {
      assert buf[cpos..][1..] == buf[cpos + 1..];
      cpos := cpos + 1;
    }
  }

  method ReadAddress(buf: string, start: nat) returns (address: nat, cpos: nat)
    requires start <= |buf|
    ensures cpos <= |buf| && (address, buf[cpos..]) == HexNumber(buf[start..], 0)
  {
    address, cpos := 0, start;
    while cpos < |buf| && IsXDigit(buf[cpos])
      invariant cpos <= |buf| && HexNumber(buf[cpos..], address) == HexNumber(buf[start..], 0)
    {
      assert buf[cpos..][1..] == buf[cpos + 1..];
      address := address * 16 + Hex2Dig(buf[cpos]);
      cpos := cpos + 1;
    }
  }

  /** The code loop of load_mem: it stores byte by byte until a pair is not hexadecimal or memory ends. */
  method StoreCode(m: array<Byte>, address: nat, buf: string, start: nat) returns (count: nat, ok: bool)
    requires start <= |buf|
    modifies m
    ensures var bytes := Pairs(buf[start..]);
            var room := if address < m.Length then m.Length - address else 0;
            && ok == (bytes == [] || |bytes| <= room) && count == (if ok then |bytes| else room)
            && count <= |bytes|
            && m[..] == if count == 0 then old(m[..]) else Splice(old(m[..]), address, bytes[..count])
  {
    hide IsXDigit, Hex2Dig, Splice;
    ghost var bytes, was := Pairs(buf[start..]), m[..];
    var cpos := start;
    count := 0;
    while cpos + 1 < |buf| && IsXDigit(buf[cpos]) && IsXDigit(buf[cpos + 1])
      invariant cpos <= |buf| && count <= |bytes| && Pairs(buf[cpos..]) == bytes[count..]
      invariant count > 0 ==> address + count <= m.Length
      invariant m[..] == if count == 0 then was else Splice(was, address, bytes[..count])
      decreases |buf| - cpos
    {
      assert buf[cpos..][2..] == buf[cpos + 2..];
      var byte := 16 * Hex2Dig(buf[cpos]) + Hex2Dig(buf[cpos + 1]);
      assert bytes[count..][0] == byte && bytes[count..][1..] == bytes[count + 1..];
      if address + count >= m.Length {
        return count, false;
      }
      m[address + count] := byte;
      PatchNext(was, address, bytes, count);
      count := count + 1;
      cpos := cpos + 2;
    }
    assert Pairs(buf[cpos..]) == [];
    assert bytes[..count] == bytes;
    ok := true;
  }

  lemma PatchNext(m: Bytes, address: nat, bytes: Bytes, count: nat)
    requires count < |bytes| && address + count < |m|
    ensures (if count == 0 then m else Splice(m, address, bytes[..count]))[address + count := bytes[count]]
         == Splice(m, address, bytes[..count + 1])
  {
  }

  method LoadLineInto(m: array<Byte>, buf: string) returns (count: nat, ok: bool)
    modifies m
    ensures Loaded(m[..], count, ok) == LoadLine(old(m[..]), buf)
  {
    hide Pairs, HexNumber, SkipSpace;
    var cpos := SkipBlanks(buf, 0);
    assert buf[0..] == buf;
    if cpos + 1 >= |buf| || buf[cpos] != '0' || (buf[cpos + 1] != 'x' && buf[cpos + 1] != 'X') {
      return 0, true;
    }
    assert buf[cpos..][2..] == buf[cpos + 2..];
    var address: nat;
    address, cpos := ReadAddress(buf, cpos + 2);
    cpos := SkipBlanks(buf, cpos);
    if cpos == |buf| || buf[cpos] != ':' {
      return 0, false;
    }
    assert buf[cpos..][1..] == buf[cpos + 1..];
    cpos := SkipBlanks(buf, cpos + 1);
    ghost var bytes := Pairs(buf[cpos..]);
    count, ok := StoreCode(m, address, buf, cpos);
    assert ok ==> bytes[..count] == bytes;
  }

  /** load_mem: the number of bytes loaded, or zero after an error. */
  method LoadMem(m: array<Byte>, lines: seq<string>) returns (count: nat)
    modifies m
    ensures var r := LoadLines(old(m[..]), lines);
            m[..] == r.m && count == if r.ok then r.count else 0
  {
    hide LoadLine;
    var i := 0;
    count := 0;
    while i < |lines|
      invariant 0 <= i <= |lines| && LoadLines(old(m[..]), lines[..i]) == Loaded(m[..], count, true)
    {
      assert lines[..i + 1][..i] == lines[..i];
      var n, ok := LoadLineInto(m, lines[i]);
      if !ok {
        LoadStops(old(m[..]), lines, i + 1);
        return 0;
      }
      count := count + n;
      i := i + 1;
    }
    assert lines[..i] == lines;
  }

  lemma {:induction false} LoadStops(m: Bytes, lines: seq<string>, i: nat)
    requires i <= |lines| && !LoadLines(m, lines[..i]).ok
    ensures LoadLines(m, lines) == LoadLines(m, lines[..i])
    decreases |lines|
  {
    if i < |lines| {
      assert lines[..|lines| - 1][..i] == lines[..i];
      LoadStops(m, lines[..|lines| - 1], i);
    } else {
      assert lines[..i] == lines;
    }
  }

  /** `pos` has at most `n` hexadecimal digits. */
  predicate FitsHex(pos: nat, n: nat) { if n == 0 then pos == 0 else FitsHex(pos / 16, n - 1) }

  /** The digits of an address, read back. */
  lemma {:induction false} AddressDigits(pos: nat, n: nat, rest: string)
    requires FitsHex(pos, n)
    ensures HexNumber(Hex(pos, n) + rest, 0) == HexNumber(rest, pos)
    decreases n
  {
    hide HexDigit, Hex2Dig, IsXDigit;
    if n == 0 {
      assert Hex(pos, n) + rest == rest;
    } else {
      var c := HexDigit(pos % 16);
      DigitBack(pos % 16);
      AddressDigits(pos / 16, n - 1, [c] + rest);
      assert Hex(pos, n) + rest == Hex(pos / 16, n - 1) + ([c] + rest);
      assert ([c] + rest)[1..] == rest;
    }
  }

  lemma AddressFits(pos: nat)
    ensures pos <= 0xFFF ==> FitsHex(pos, 3)
    ensures pos <= 0xFFFF ==> FitsHex(pos, 4)
  {
    ThreeFit(pos);
    ThreeFit(pos / 16);
  }

  lemma ThreeFit(pos: nat)
    ensures pos <= 0xFFF ==> FitsHex(pos, 3)
  {
    assert FitsHex(pos / 16 / 16, 1) <==> pos / 16 / 16 / 16 == 0;
    assert FitsHex(pos / 16, 2) <==> FitsHex(pos / 16 / 16, 1);
  }

  lemma TwoDigits(b: Byte)
    ensures Hex(b, 2) == [HexDigit(b / 16), HexDigit(b % 16)]
  {
    hide HexDigit, Hex;
    HexLast(b, 2);
    OneDigit(b / 16);
    assert b / 16 % 16 == b / 16;
  }

  lemma OneDigit(v: int)
    ensures Hex(v, 1) == [HexDigit(v % 16)]
  {
    hide HexDigit;
    assert Hex(v / 16, 0) == [];
  }

  lemma PairsStep(b: Byte, tail: string)
    ensures Pairs(Hex(b, 2) + tail) == [b] + Pairs(tail)
  {
    hide Hex, HexDigit, Hex2Dig, IsXDigit;
    TwoDigits(b);
    DigitBack(b / 16);
    DigitBack(b % 16);
    var s := Hex(b, 2) + tail;
    assert s[2..] == tail && s[0] == HexDigit(b / 16) && s[1] == HexDigit(b % 16);
  }

  lemma {:induction false} PairsOf(bytes: Bytes, rest: string)
    requires rest != [] && !IsXDigit(rest[0])
    ensures Pairs(CodeHex(bytes) + rest) == bytes
  {
    hide Hex, IsXDigit;
    if bytes == [] {
      assert CodeHex(bytes) + rest == rest;
    } else {
      var tail := CodeHex(bytes[1..]) + rest;
      PairsOf(bytes[1..], rest);
      PairsStep(bytes[0], tail);
      assert CodeHex(bytes) + rest == Hex(bytes[0], 2) + tail;
    }
  }

  /** What follows the address column is the code, or the bar when there is none. */
  lemma AfterCode(bytes: Bytes, n: nat, text: string)
    requires n > 0
    ensures Pairs(SkipSpace(CodeHex(bytes) + Spaces(n) + "| " + text)) == bytes
  {
    hide Hex, Pairs, CodeHex, HexDigit;
    var bar := "| " + text;
    var after := Spaces(n) + bar;
    assert CodeHex(bytes) + Spaces(n) + "| " + text == CodeHex(bytes) + after;
    if bytes == [] {
      assert CodeHex(bytes) + after == after;
      SkipSpaces(n, bar);
      PairsOf(bytes, bar);
      assert CodeHex(bytes) + bar == bar;
    } else {
      PairsOf(bytes, after);
      CodeStarts(bytes);
      assert (CodeHex(bytes) + after)[0] == CodeHex(bytes)[0];
    }
  }

  lemma CodeStarts(bytes: Bytes)
    requires bytes != []
    ensures !IsSpace(CodeHex(bytes)[0])
  {
    TwoDigits(bytes[0]);
    DigitBack(bytes[0] / 16);
  }

  lemma ParseParts(s: string, pos: nat, rest: string)
    requires |s| >= 2 && s[0] == '0' && s[1] == 'x' && HexNumber(s[2..], 0) == (pos, rest)
    requires rest != [] && rest[0] == ':'
    ensures ParseLine(s) == Code(pos, Pairs(SkipSpace(rest[1..])))
  {
    hide HexNumber, Pairs;
    assert SkipSpace(s) == s && SkipSpace(rest) == rest;
  }

  /** The number in the address column ends at its colon. */
  lemma AddressRead(pos: nat, rest: string)
    requires pos <= 0xFFFF && rest != [] && rest[0] == ':'
    ensures HexNumber(Hex(pos, if pos > 0xFFF then 4 else 3) + rest, 0) == (pos, rest)
  {
    hide Hex;
    AddressFits(pos);
    AddressDigits(pos, if pos > 0xFFF then 4 else 3, rest);
  }

  function Colon(pos: nat): string { if pos > 0xFFF then ":" else ": " }

  lemma AddressTail(pos: nat, after: string)
    ensures var s := Address(pos) + after;
            s[0] == '0' && s[1] == 'x' && s[2..] == Hex(pos, if pos > 0xFFF then 4 else 3) + (Colon(pos) + after)
  {
    hide Hex;
  }

  lemma ColonTail(pos: nat, after: string)
    ensures (Colon(pos) + after)[0] == ':' && SkipSpace((Colon(pos) + after)[1..]) == SkipSpace(after)
  {
    if pos > 0xFFF {
      assert (":" + after)[1..] == after;
    } else {
      assert (": " + after)[1..] == " " + after && (" " + after)[1..] == after;
    }
  }

  lemma ParseAddress(pos: nat, after: string)
    requires pos <= 0xFFFF
    ensures ParseLine(Address(pos) + after) == Code(pos, Pairs(SkipSpace(after)))
  {
    hide Hex, HexNumber, Pairs, IsXDigit, ParseLine, Address, Colon;
    AddressTail(pos, after);
    ColonTail(pos, after);
    AddressRead(pos, Colon(pos) + after);
    ParseParts(Address(pos) + after, pos, Colon(pos) + after);
  }

  /** Printing a line and parsing it gives back the address and the code bytes, whatever the source text. */
  lemma ParsePrinted(pos: nat, bytes: Bytes, text: string)
    requires pos <= 0xFFFF && |bytes| <= 10
    ensures ParseLine(CodeLine(pos, bytes, text)) == Code(pos, bytes)
  {
    hide Address, CodeHex, ParseLine, Pairs, Spaces, SkipSpace;
    var after := CodeHex(bytes) + Spaces(Gap(pos) - 2 * |bytes|) + "| " + text;
    AfterCode(bytes, Gap(pos) - 2 * |bytes|, text);
    assert CodeLine(pos, bytes, text) == Address(pos) + after;
    ParseAddress(pos, after);
  }

  lemma {:induction false} SkipSpaces(n: nat, s: string)
    ensures SkipSpace(Spaces(n) + s) == SkipSpace(s)
  {
    if n > 0 {
      SkipSpaces(n - 1, s);
      assert (Spaces(n) + s)[1..] == Spaces(n - 1) + s;
    } else {
      assert Spaces(0) + s == s;
    }
  }

  /** A line printed without an address loads nothing. */
  lemma BlankSkipped(pos: int, text: string)
    ensures ParseLine(BlankLine(pos, text)) == Skipped
  {
    var n := 7 + Gap(pos);
    assert BlankLine(pos, text) == Spaces(n) + ("| " + text);
    SkipSpaces(n, "| " + text);
  }
}
