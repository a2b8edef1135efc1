/** The .yo text, character by character: the columns that the assembler prints, and every line that the loader
    understands. */
module YoLines {
  import opened Lists
  import opened Words
  import opened ByteMemory
  import opened ObjectText

  // ---------------------------------------------------------------------------------------------
  // Printed columns
  // ---------------------------------------------------------------------------------------------

  /** Where the bar stands. */
  function BarAt(pos: int): nat { if pos > 0xFFF then 29 else 28 }

  /** The columns of a printed line: the address, the bytes as pairs of digits from column 7 on, blanks up to the
      bar, and the source text. */
  lemma ColumnsAre(pos: int, bytes: Bytes, text: string)
    requires |bytes| <= 10
    ensures var (line, bar) := (CodeLine(pos, bytes, text), BarAt(pos));
            && |line| == bar + 2 + |text| && line[bar..] == "| " + text && line[..2] == "0x"
            && (if pos > 0xFFF then line[2..7] == Hex(pos, 4) + ":" else line[2..7] == Hex(pos, 3) + ": ")
            && (forall k :: 0 <= k < |bytes| ==> PairAt(line, 7 + 2 * k, bytes[k]))
            && forall c :: 7 + 2 * |bytes| <= c < bar ==> line[c] == ' '
  {
    hide Hex, CodeHex;
    var line, bar := CodeLine(pos, bytes, text), BarAt(pos);
    var hex := CodeHex(bytes);
    assert line == Address(pos) + (hex + (Spaces(Gap(pos) - 2 * |bytes|) + ("| " + text)));
    forall k | 0 <= k < |bytes|
      ensures PairAt(line, 7 + 2 * k, bytes[k])
    {
      PairsAt(bytes, k);
      assert line[7 + 2 * k] == hex[2 * k] && line[8 + 2 * k] == hex[2 * k + 1];
    }
  }

  /** A line without tokens has blanks up to the same bar. */
  lemma BlankColumns(pos: int, text: string)
    ensures var line, bar := BlankLine(pos, text), BarAt(pos);
            && |line| == bar + 2 + |text| && line[bar..] == "| " + text
            && forall c :: 0 <= c < bar ==> line[c] == ' '
  {
    assert BlankLine(pos, text) == Spaces(7 + Gap(pos)) + ("| " + text);
  }

  predicate PairAt(line: string, c: nat, b: Byte) {
    c + 1 < |line| && line[c] == HexDigit(b / 16) && line[c + 1] == HexDigit(b % 16)
  }

  lemma {:induction false} PairsAt(bytes: Bytes, k: nat)
    requires k < |bytes|
    ensures CodeHex(bytes)[2 * k] == HexDigit(bytes[k] / 16) && CodeHex(bytes)[2 * k + 1] == HexDigit(bytes[k] % 16)
  {
    hide Hex, HexDigit;
    TwoDigits(bytes[0]);
    if k > 0 { PairsAt(bytes[1..], k - 1); }
  }

  /** The address digits, the highest first: three of them below 0x1000 and four from there on. */
  lemma {:induction false} DigitsAre(value: int, len: nat, k: nat)
    requires k < len
    ensures Pow16(len - 1 - k) > 0 && Hex(value, len)[k] == HexDigit(value / Pow16(len - 1 - k) % 16)
    decreases len
  {
    if k < len - 1 {
      DigitsAre(value / 16, len - 1, k);
      DivBy16(value, Pow16(len - 2 - k));
    }
  }

  function Pow16(n: nat): nat { if n == 0 then 1 else 16 * Pow16(n - 1) }

  lemma DivBy16(v: int, p: nat)
    requires p > 0
    ensures v / 16 / p == v / (16 * p)
  {
    var q, r := (v / 16) / p, (v / 16) % p;
    assert v / 16 == q * p + r;
    assert v == q * (16 * p) + (16 * r + v % 16);
    ModUnique2(v, 16 * p, q, 16 * r + v % 16);
  }

  // ---------------------------------------------------------------------------------------------
  // Lines that are loaded
  // ---------------------------------------------------------------------------------------------

  const LOWER := "0123456789abcdef"
  const UPPER := "0123456789ABCDEF"

  /** Character `c` is the hexadecimal digit of value `d`, in either case. */
  predicate IsDigit(c: char, d: nat) { d < 16 && (c == LOWER[d] || c == UPPER[d]) }

  /** A digit has just the one value. */
  lemma DigitIs(c: char)
    ensures IsXDigit(c) ==> IsDigit(c, Hex2Dig(c))
    ensures forall d: nat :: IsDigit(c, d) ==> IsXDigit(c) && Hex2Dig(c) == d
  {
  }

  predicate AllBlank(s: string) { forall k :: 0 <= k < |s| ==> IsSpace(s[k]) }

  predicate AllDigits(s: string) { forall k :: 0 <= k < |s| ==> IsXDigit(s[k]) }

  /** The value of a row of digits, the last of them the lowest. */
  function NumberOf(s: string): nat
    requires AllDigits(s)
  {
    if s == [] then 0 else 16 * NumberOf(s[..|s| - 1]) + Hex2Dig(s[|s| - 1])
  }

  /** The bytes of a row of pairs of digits. */
  function BytesIn(s: string): (bs: Bytes)
    requires AllDigits(s) && |s| % 2 == 0
    ensures |bs| == |s| / 2
  {
    seq(|s| / 2, k requires 0 <= k < |s| / 2 => (PairInside(s, k); 16 * Hex2Dig(s[2 * k]) + Hex2Dig(s[2 * k + 1])))
  }

  lemma PairInside(s: string, k: nat)
    requires AllDigits(s) && |s| % 2 == 0 && k < |s| / 2
    ensures 2 * k + 1 < |s| && IsXDigit(s[2 * k]) && IsXDigit(s[2 * k + 1])
    ensures Hex2Dig(s[2 * k]) < 16 && Hex2Dig(s[2 * k + 1]) < 16
  {
  }

  lemma {:induction false} BlanksSkipped(blanks: string, rest: string)
    requires AllBlank(blanks) && (rest == [] || !IsSpace(rest[0]))
    ensures SkipSpace(blanks + rest) == rest
  {
    if blanks == [] {
      assert blanks + rest == rest;
    } else {
      assert (blanks + rest)[1..] == blanks[1..] + rest;
      BlanksSkipped(blanks[1..], rest);
    }
  }

  lemma {:induction false} NumberRead(digits: string, rest: string)
    requires AllDigits(digits)
    ensures HexNumber(digits + rest, 0) == HexNumber(rest, NumberOf(digits))
    decreases |digits|
  {
    hide IsXDigit, Hex2Dig;
    if digits == [] {
      assert digits + rest == rest;
    } else {
      var front, last := digits[..|digits| - 1], digits[|digits| - 1];
      NumberRead(front, [last] + rest);
      assert digits + rest == front + ([last] + rest);
      assert ([last] + rest)[1..] == rest;
    }
  }

  predicate StartsPair(s: string) { |s| >= 2 && IsXDigit(s[0]) && IsXDigit(s[1]) }

  lemma {:induction false} PairsRead(digits: string, rest: string)
    requires AllDigits(digits) && |digits| % 2 == 0 && !StartsPair(rest)
    ensures Pairs(digits + rest) == BytesIn(digits)
    decreases |digits|
  {
    hide IsXDigit, Hex2Dig;
    if digits == [] {
      assert digits + rest == rest;
    } else {
      var tail := digits[2..];
      PairsRead(tail, rest);
      assert (digits + rest)[2..] == tail + rest;
      BytesCons(digits);
    }
  }

  lemma BytesCons(digits: string)
    requires AllDigits(digits) && |digits| % 2 == 0 && digits != []
    ensures AllDigits(digits[2..]) && Hex2Dig(digits[0]) < 16 && Hex2Dig(digits[1]) < 16
    ensures BytesIn(digits) == [16 * Hex2Dig(digits[0]) + Hex2Dig(digits[1])] + BytesIn(digits[2..])
  {
    hide Hex2Dig;
    PairInside(digits, 0);
    var bs, rest := BytesIn(digits), BytesIn(digits[2..]);
    forall k | 0 < k < |bs|
      ensures bs[k] == rest[k - 1]
    {
      assert digits[2..][2 * (k - 1)] == digits[2 * k] && digits[2..][2 * (k - 1) + 1] == digits[2 * k + 1];
    }
    assert bs == [bs[0]] + rest;
  }

  /** A line is: blanks, `0x` in either case, digits, blanks, a colon, blanks, pairs of digits, and whatever
      follows.  It gives the bytes of the pairs to the address of the digits. */
  lemma CodeLineTaken(b1: string, x: char, digits: string, b2: string, b3: string, pairs: string, rest: string)
    requires AllBlank(b1) && AllBlank(b2) && AllBlank(b3) && x in {'x', 'X'} && AllDigits(digits)
    requires AllDigits(pairs) && |pairs| % 2 == 0 && !StartsPair(rest)
    requires (pairs == [] && rest != [] ==> !IsSpace(rest[0]))
    ensures ParseLine(b1 + (['0', x] + (digits + (b2 + ([':'] + (b3 + (pairs + rest))))))) ==
            Code(NumberOf(digits), BytesIn(pairs))
  {
    hide NumberOf, BytesIn, HexNumber, Pairs, SkipSpace, Hex2Dig;
    var t3 := pairs + rest;
    var t2 := [':'] + (b3 + t3);
    var t1 := digits + (b2 + t2);
    BlanksSkipped(b1, ['0', x] + t1);
    assert (['0', x] + t1)[2..] == t1;
    NumberRead(digits, b2 + t2);
    NumberEnds(b2 + t2, NumberOf(digits));
    BlanksSkipped(b2, t2);
    assert t2[1..] == b3 + t3;
    BlanksSkipped(b3, t3);
    PairsRead(pairs, rest);
  }

  lemma NumberEnds(s: string, n: nat)
    requires s == [] || !IsXDigit(s[0])
    ensures HexNumber(s, n) == (n, s)
  {
  }

  /** Behind digits and the blanks `b2` stands something else than a colon. */
  predicate NoColonHere(b2: string, rest: string) {
    rest == [] || (!IsSpace(rest[0]) && rest[0] != ':' && (b2 == [] ==> !IsXDigit(rest[0])))
  }

  /** Any other line is skipped if it has no `0x` in front, and rejected if no colon follows its digits. */
  lemma OtherLines(b1: string, x: char, digits: string, b2: string, rest: string)
    requires AllBlank(b1) && AllBlank(b2) && AllDigits(digits)
    ensures (rest == [] || !IsSpace(rest[0])) && !(|rest| >= 2 && rest[0] == '0' && rest[1] in {'x', 'X'}) ==>
            ParseLine(b1 + rest) == Skipped
    ensures x in {'x', 'X'} && NoColonHere(b2, rest) ==>
            ParseLine(b1 + (['0', x] + (digits + (b2 + rest)))) == NoColon
  {
    hide HexNumber, Pairs, SkipSpace, Hex2Dig, NumberOf;
    if rest == [] || !IsSpace(rest[0]) { BlanksSkipped(b1, rest); }
    if x in {'x', 'X'} && NoColonHere(b2, rest) {
      var t := digits + (b2 + rest);
      BlanksSkipped(b1, ['0', x] + t);
      assert (['0', x] + t)[2..] == t;
      NumberRead(digits, b2 + rest);
      NumberEnds(b2 + rest, NumberOf(digits));
      BlanksSkipped(b2, rest);
    }
  }

  // ---------------------------------------------------------------------------------------------
  // What is stored
  // ---------------------------------------------------------------------------------------------

  /** A line's bytes go to its address one after the other, as far as memory reaches; the line is accepted exactly
      if all of them fit, and nothing else is changed. */
  lemma LineStores(m: Bytes, buf: string, p: nat)
    requires p < |m|
    ensures var r := LoadLine(m, buf);
            && |r.m| == |m|
            && match ParseLine(buf)
               case Skipped => r == Loaded(m, 0, true)
               case NoColon => r == Loaded(m, 0, false)
               case Code(a, bytes) =>
                 && r.m[p] == (if a <= p < a + |bytes| then bytes[p - a] else m[p])
                 && (r.ok <==> bytes == [] || a + |bytes| <= |m|)
                 && r.count == (if r.ok then |bytes| else if a < |m| then |m| - a else 0)
  {
    hide ParseLine;
  }

  /** A file is loaded line by line up to the first line that is rejected, and the bytes are counted. */
  lemma FileStores(m: Bytes, lines: seq<string>, line: string)
    ensures var before := LoadLines(m, lines);
            LoadLines(m, lines + [line]) ==
              if !before.ok then before
              else
                var r := LoadLine(before.m, line);
                Loaded(r.m, before.count + r.count, r.ok)
  {
    hide LoadLine;
    assert (lines + [line])[..|lines|] == lines;
  }
}
