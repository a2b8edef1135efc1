/** The machine programs from their source text: however the lines are laid out and whatever the labels are
    called, the assembler and the loader put exactly the listings into memory. */
module ProgramText {
  import opened Lists
  import opened Words
  import opened ByteMemory
  import opened ObjectText
  import opened Yas
  import opened Assembly
  import opened Sources
  import opened Layout
  import Ncopy
  import RsumList
  import CopyBlock

  /** How a listing is laid out: a name for every offset, the instructions that carry their name on their own
      line, the lines without code before each offset, and each line's text. */
  datatype Style = Style(name: nat -> string, inline: nat -> bool, lead: nat -> seq<Item>, text: nat -> string)

  ghost predicate Named(style: Style) {
    forall o: nat, p: nat {:trigger style.name(o), style.name(p)} :: style.name(o) == style.name(p) ==> o == p
  }

  /** Before offset `o` stand lines without tokens, and labels that name `o`. */
  ghost predicate LeadOk(style: Style, o: nat) {
    forall k {:trigger style.lead(o)[k]} :: 0 <= k < |style.lead(o)| ==>
      var x := style.lead(o)[k]; x.Blank? || (x.Label? && x.name == style.name(o))
  }

  ghost predicate Proper(style: Style) { Named(style) && forall o: nat {:trigger LeadOk(style, o)} :: LeadOk(style, o) }

  /** Offset `o` has its label, on the line of its instruction or before it. */
  ghost predicate Marked(style: Style, o: nat) {
    style.inline(o) || exists k: nat :: k < |style.lead(o)| && style.lead(o)[k].Label?
  }

  predicate HasTarget(i: Instr) { i.Jmp? || i.Call? }

  /** The instruction at `o` can be written down; a jump or call goes to a labelled one. */
  ghost predicate LineOk(code: Listing, base: nat, style: Style, o: nat)
    requires code(o).Some?
  {
    var i := code(o).value;
    && Valid(i)
    && (HasTarget(i) ==> Imm(i) >= base && code(Imm(i) - base).Some? && Marked(style, Imm(i) - base))
  }

  ghost predicate AllOk(code: Listing, base: nat, style: Style) {
    forall o: nat {:trigger LineOk(code, base, style, o)} :: code(o).Some? ==> LineOk(code, base, style, o)
  }

  /** A target is written as its label, a zero displacement not at all, other constants as numbers. */
  function ImmTokens(i: Instr, base: nat, style: Style): seq<Token> {
    if HasTarget(i) && Imm(i) >= base then [Ident(style.name(Imm(i) - base))]
    else if MemoryOperand(i) && Imm(i) == 0 then []
    else [Num(Imm(i))]
  }

  function ItemAt(code: Listing, base: nat, style: Style, o: nat): Item
    requires code(o).Some?
  {
    Sources.Code(if style.inline(o) then Some(style.name(o)) else None, code(o).value,
                 ImmTokens(code(o).value, base, style), style.text(o))
  }

  /** The lines from offset `o` on. */
  function ItemsFrom(code: Listing, length: nat, base: nat, style: Style, o: nat): seq<Item>
    decreases length - o
  {
    if o >= length || code(o).None? then style.lead(o)
    else
      var rest := ItemsFrom(code, length, base, style, o + Size(code(o).value));
      style.lead(o) + [ItemAt(code, base, style, o)] + rest
  }

  /** The source of a listing at `base`. */
  function SourceItems(code: Listing, length: nat, base: nat, style: Style, head: string): seq<Item> {
    [Pos(base, head)] + ItemsFrom(code, length, base, style, 0)
  }

  // ---------------------------------------------------------------------------------------------
  // Addresses of concatenated lines
  // ---------------------------------------------------------------------------------------------

  /** The address of line `k` when the first line starts at `a`. */
  function AddressFrom(items: seq<Item>, k: nat, a: nat): nat
    requires k <= |items|
  {
    if k == 0 then a else Beyond(items[k - 1], AddressFrom(items, k - 1, a))
  }

  lemma {:induction false} AddressFromZero(items: seq<Item>, k: nat)
    requires k <= |items|
    ensures AddressOf(items, k) == AddressFrom(items, k, 0)
  {
    hide Beyond;
    if k > 0 { AddressFromZero(items, k - 1); }
  }

  lemma {:induction false} AddressOfFirst(xs: seq<Item>, ys: seq<Item>, k: nat, a: nat)
    requires k <= |xs|
    ensures AddressFrom(xs + ys, k, a) == AddressFrom(xs, k, a)
  {
    hide Beyond;
    if k > 0 { AddressOfFirst(xs, ys, k - 1, a); }
  }

  lemma {:induction false} AddressOfSecond(xs: seq<Item>, ys: seq<Item>, k: nat, a: nat)
    requires k <= |ys|
    ensures AddressFrom(xs + ys, |xs| + k, a) == AddressFrom(ys, k, AddressFrom(xs, |xs|, a))
  {
    hide Beyond;
    if k > 0 { AddressOfSecond(xs, ys, k - 1, a); } else { AddressOfFirst(xs, ys, |xs|, a); }
  }

  lemma {:induction false} LeadStays(style: Style, o: nat, k: nat, a: nat)
    requires LeadOk(style, o) && k <= |style.lead(o)|
    ensures AddressFrom(style.lead(o), k, a) == a
  {
    if k > 0 {
      var x := style.lead(o)[k - 1];
      LeadStays(style, o, k - 1, a);
    }
  }

  /** The lines before the instruction at `o` start where it does. */
  lemma PartLead(code: Listing, length: nat, base: nat, style: Style, o: nat, k: nat, a: nat)
    requires LeadOk(style, o) && k <= |style.lead(o)|
    ensures k <= |ItemsFrom(code, length, base, style, o)|
    ensures AddressFrom(ItemsFrom(code, length, base, style, o), k, a) == a
    ensures k < |style.lead(o)| ==> ItemsFrom(code, length, base, style, o)[k] == style.lead(o)[k]
  {
    hide Beyond, LeadOk;
    var lead, items := style.lead(o), ItemsFrom(code, length, base, style, o);
    assert items == lead + items[|lead|..];
    LeadStays(style, o, k, a);
    AddressOfFirst(lead, items[|lead|..], k, a);
  }

  lemma SizePositive(i: Instr)
    ensures Size(i) > 0
  {
  }

  /** The instruction at `o`, and the lines from the next one on. */
  lemma PartRest(code: Listing, length: nat, base: nat, style: Style, o: nat, k: nat, a: nat)
    requires Tiles(code, length) && code(o).Some? && LeadOk(style, o)
    requires k <= |ItemsFrom(code, length, base, style, o + Size(code(o).value))|
    ensures o + Size(code(o).value) <= length
    ensures var items, n := ItemsFrom(code, length, base, style, o), |style.lead(o)|;
            var rest := ItemsFrom(code, length, base, style, o + Size(code(o).value));
            && |items| == n + 1 + |rest| && items[n] == ItemAt(code, base, style, o)
            && (k < |rest| ==> items[n + 1 + k] == rest[k])
            && AddressFrom(items, n + 1 + k, a) == AddressFrom(rest, k, a + Size(code(o).value))
  {
    hide LeadOk, Tiles, Size, ItemsFrom, Beyond, AddressFrom;
    ItemsSplit(code, length, base, style, o);
    var lead, x := style.lead(o), ItemAt(code, base, style, o);
    var rest := ItemsFrom(code, length, base, style, o + Size(code(o).value));
    var items := ItemsFrom(code, length, base, style, o);
    assert items[|lead|] == x;
    LeadStays(style, o, |lead|, a);
    AddressOfFirst(lead, [x], |lead|, a);
    AddressAfter(lead, x, a);
    CodeBeyond(x, a);
    AddressOfSecond(lead + [x], rest, k, a);
  }

  lemma ItemsSplit(code: Listing, length: nat, base: nat, style: Style, o: nat)
    requires Tiles(code, length) && code(o).Some?
    ensures o + Size(code(o).value) <= length
    ensures ItemsFrom(code, length, base, style, o) ==
      style.lead(o) + [ItemAt(code, base, style, o)] + ItemsFrom(code, length, base, style, o + Size(code(o).value))
  {
    SizePositive(code(o).value);
    TileOf(code, length, o);
    hide Tiles, Size;
  }

  lemma CodeBeyond(x: Item, a: nat)
    requires x.Code?
    ensures Beyond(x, a) == a + Size(x.i)
  {
  }

  lemma AddressAfter(xs: seq<Item>, x: Item, a: nat)
    ensures AddressFrom(xs + [x], |xs| + 1, a) == Beyond(x, AddressFrom(xs + [x], |xs|, a))
  {
  }

  // ---------------------------------------------------------------------------------------------
  // Lines and offsets
  // ---------------------------------------------------------------------------------------------

  lemma StartsAtZero(code: Listing, length: nat)
    requires Tiles(code, length)
    ensures code(0).Some? && 0 < length
  {
    TileOf(code, length, 0);
  }

  /** Line `k` from `o` on belongs to offset `p`: it is the instruction there, or stands before it. */
  ghost predicate Belongs(code: Listing, base: nat, style: Style, x: Item, p: nat) {
    || (code(p).Some? && x == ItemAt(code, base, style, p))
    || exists j: nat :: j < |style.lead(p)| && x == style.lead(p)[j]
  }

  lemma {:induction false} ItemsAt(code: Listing, length: nat, base: nat, style: Style, o: nat, k: nat)
    returns (p: nat)
    requires Tiles(code, length) && Proper(style) && (code(o).Some? || o == length)
    requires k < |ItemsFrom(code, length, base, style, o)|
    ensures o <= p <= length && Belongs(code, base, style, ItemsFrom(code, length, base, style, o)[k], p)
    ensures AddressFrom(ItemsFrom(code, length, base, style, o), k, base + o) == base + p
    ensures p == length ==> !ItemsFrom(code, length, base, style, o)[k].Code?
    decreases k
  {
    hide Tiles, Size, AddressFrom;
    assert LeadOk(style, o);
    var n := |style.lead(o)|;
    if code(o).Some? { TileOf(code, length, o); }
    if k < n {
      PartLead(code, length, base, style, o, k, base + o);
      p := o;
    } else if k == n {
      PartLead(code, length, base, style, o, n, base + o);
      PartRest(code, length, base, style, o, 0, base + o);
      p := o;
    } else {
      PartRest(code, length, base, style, o, k - n - 1, base + o);
      p := ItemsAt(code, length, base, style, o + Size(code(o).value), k - n - 1);
    }
  }

  /** Every instruction of the listing is one of the lines, and every label is on one. */
  lemma {:induction false} ItemsReach(code: Listing, length: nat, base: nat, style: Style, o: nat, t: nat)
    returns (k: nat, d: nat)
    requires Tiles(code, length) && Proper(style) && code(o).Some? && code(t).Some? && o <= t
    ensures k < |ItemsFrom(code, length, base, style, o)|
    ensures ItemsFrom(code, length, base, style, o)[k] == ItemAt(code, base, style, t)
    ensures AddressFrom(ItemsFrom(code, length, base, style, o), k, base + o) == base + t
    ensures Marked(style, t) ==> d < |ItemsFrom(code, length, base, style, o)|
                                 && MarkOf(ItemsFrom(code, length, base, style, o)[d]) == Some(style.name(t))
    decreases t - o
  {
    hide Tiles, AddressFrom, Size;
    assert LeadOk(style, o);
    TileOf(code, length, o);
    TileOf(code, length, t);
    SizePositive(code(o).value);
    var n := |style.lead(o)|;
    d := 0;
    if o == t {
      PartLead(code, length, base, style, o, n, base + o);
      PartRest(code, length, base, style, o, 0, base + o);
      k := n;
      d := MarkHere(code, length, base, style, o);
    } else {
      var next := o + Size(code(o).value);
      assert !NoStart(code, o, t - o);
      var k', d' := ItemsReach(code, length, base, style, next, t);
      PartRest(code, length, base, style, o, k', base + o);
      k := n + 1 + k';
      if Marked(style, t) {
        PartRest(code, length, base, style, o, d', base + o);
        d := n + 1 + d';
      }
    }
  }

  lemma MarkHere(code: Listing, length: nat, base: nat, style: Style, o: nat) returns (d: nat)
    requires Tiles(code, length) && LeadOk(style, o) && code(o).Some?
    ensures Marked(style, o) ==> d < |ItemsFrom(code, length, base, style, o)|
                                 && MarkOf(ItemsFrom(code, length, base, style, o)[d]) == Some(style.name(o))
  {
    hide Tiles, AddressFrom, Size;
    PartRest(code, length, base, style, o, 0, base + o);
    d := |style.lead(o)|;
    if Marked(style, o) && !style.inline(o) {
      d :| d < |style.lead(o)| && style.lead(o)[d].Label?;
      PartLead(code, length, base, style, o, d, base + o);
    }
  }

  // ---------------------------------------------------------------------------------------------
  // The whole source
  // ---------------------------------------------------------------------------------------------

  lemma SourceAt(code: Listing, length: nat, base: nat, style: Style, head: string, k: nat)
    requires k <= |ItemsFrom(code, length, base, style, 0)|
    ensures var items := SourceItems(code, length, base, style, head);
            && |items| == 1 + |ItemsFrom(code, length, base, style, 0)|
            && AddressOf(items, k + 1) == AddressFrom(ItemsFrom(code, length, base, style, 0), k, base)
  {
    hide ItemsFrom, Beyond;
    var rest := ItemsFrom(code, length, base, style, 0);
    AddressFromZero([Pos(base, head)] + rest, k + 1);
    AddressOfSecond([Pos(base, head)], rest, k, 0);
    PosBeyond(base, head);
  }

  lemma PosBeyond(base: nat, head: string)
    ensures AddressFrom([Pos(base, head)], 1, 0) == base
  {
  }

  /** Line `k` of the source after the first: its offset. */
  lemma SourceLineAt(code: Listing, length: nat, base: nat, style: Style, head: string, k: nat) returns (p: nat)
    requires Tiles(code, length) && Proper(style) && 0 < k < |SourceItems(code, length, base, style, head)|
    ensures p <= length && AddressOf(SourceItems(code, length, base, style, head), k) == base + p
    ensures Belongs(code, base, style, SourceItems(code, length, base, style, head)[k], p)
    ensures p == length ==> !SourceItems(code, length, base, style, head)[k].Code?
  {
    hide Tiles, Proper, Belongs, ItemsFrom, AddressFrom, AddressOf;
    StartsAtZero(code, length);
    SourceAt(code, length, base, style, head, k - 1);
    p := ItemsAt(code, length, base, style, 0, k - 1);
  }

  lemma {:induction false} FirstLabel(items: seq<Item>, name: string, k: nat) returns (d: nat)
    requires k < |items| && MarkOf(items[k]) == Some(name)
    ensures Labels(items, name, d)
  {
    hide MarkOf;
    d := k;
    if j: nat :| j < k && MarkOf(items[j]) == Some(name) {
      d := FirstLabel(items, name, j);
    }
  }

  /** The first label with the name of a labelled offset is at its address. */
  lemma LabelIs(code: Listing, length: nat, base: nat, style: Style, head: string, t: nat)
    requires Tiles(code, length) && Proper(style) && code(t).Some? && Marked(style, t)
    ensures exists d: nat :: Labels(SourceItems(code, length, base, style, head), style.name(t), d)
                             && base + t == AddressOf(SourceItems(code, length, base, style, head), d)
  {
    hide Tiles, Marked, ItemsFrom, AddressFrom, AddressOf;
    StartsAtZero(code, length);
    var items := SourceItems(code, length, base, style, head);
    var k, d := ItemsReach(code, length, base, style, 0, t);
    assert MarkOf(items[d + 1]) == Some(style.name(t));
    var first := FirstLabel(items, style.name(t), d + 1);
    LabelsMark(items, style.name(t), first);
    var p := SourceLineAt(code, length, base, style, head, first);
    BelongsMark(code, base, style, items[first], p);
  }

  lemma LabelsMark(items: seq<Item>, name: string, k: nat)
    requires Labels(items, name, k)
    ensures k < |items| && MarkOf(items[k]) == Some(name)
  {
  }

  lemma BelongsMark(code: Listing, base: nat, style: Style, x: Item, p: nat)
    requires Proper(style) && Belongs(code, base, style, x, p)
    ensures MarkOf(x) == None || MarkOf(x) == Some(style.name(p))
    ensures x.Code? || x.Label? || x.Blank?
    ensures x.Code? ==> code(p).Some? && x == ItemAt(code, base, style, p)
  {
    hide Named;
    assert LeadOk(style, p);
  }

  lemma LineIsOk(code: Listing, base: nat, style: Style, o: nat)
    requires AllOk(code, base, style) && code(o).Some?
    ensures LineOk(code, base, style, o)
  {
  }

  lemma SourceWritten(code: Listing, length: nat, base: nat, style: Style, head: string)
    requires Tiles(code, length) && Proper(style) && AllOk(code, base, style) && base <= 0xFFFF
    ensures WellWritten(SourceItems(code, length, base, style, head))
  {
    hide Tiles, Proper, AllOk, ItemsFrom, AddressOf, Belongs, Labels, Valid, LineOk;
    var items := SourceItems(code, length, base, style, head);
    forall k | 0 <= k < |items|
      ensures Writable(items[k]) && ItemMeans(items, items[k])
    {
      if k > 0 {
        var p := SourceLineAt(code, length, base, style, head, k);
        BelongsMark(code, base, style, items[k], p);
        if items[k].Code? { CodeWritten(code, length, base, style, head, p); }
      }
    }
  }

  lemma CodeWritten(code: Listing, length: nat, base: nat, style: Style, head: string, p: nat)
    requires Tiles(code, length) && Proper(style) && AllOk(code, base, style) && code(p).Some?
    ensures Writable(ItemAt(code, base, style, p))
    ensures ItemMeans(SourceItems(code, length, base, style, head), ItemAt(code, base, style, p))
  {
    hide Tiles, Proper, AllOk, ItemsFrom, AddressOf, Labels, Valid, Imm, SourceItems, Marked;
    LineIsOk(code, base, style, p);
    var i := code(p).value;
    if HasTarget(i) { LabelIs(code, length, base, style, head, Imm(i) - base); }
  }

  /** No line but the first sets or rounds the address. */
  predicate Steady(x: Item) { !x.Pos? && !x.Align? }

  lemma {:induction false} AddressesGrow(items: seq<Item>, j: nat, k: nat)
    requires 0 < j <= k <= |items| && forall l :: 0 < l < |items| ==> Steady(items[l])
    ensures AddressOf(items, j) <= AddressOf(items, k)
    ensures j < k ==> AddressOf(items, j) + |Chunk(items[j])| <= AddressOf(items, k)
    decreases k
  {
    hide Assembly.Encode;
    if j < k { AddressesGrow(items, j, k - 1); }
  }

  lemma SourceFits(code: Listing, length: nat, base: nat, style: Style, head: string, size: nat)
    requires Tiles(code, length) && Proper(style) && base + length <= 0xFFFF && base + length <= size
    ensures var items := SourceItems(code, length, base, style, head);
            InRange(items) && NoOverlap(items) && Inside(items, size)
  {
    hide Tiles, Proper, ItemsFrom, AddressOf, Belongs, Chunk;
    var items := SourceItems(code, length, base, style, head);
    forall k | 0 <= k < |items|
      ensures PrintsInRange(items, k) && LineInside(items, k, size) && (k > 0 ==> Steady(items[k]))
    {
      SourceLineFits(code, length, base, style, head, k, size);
    }
    forall j, k | 0 <= j < k < |items|
      ensures ClearOf(items, j, k)
    {
      if j > 0 { AddressesGrow(items, j, k); } else { NoChunk(items[0]); }
    }
  }

  lemma NoChunk(x: Item)
    requires x.Pos? || x.Label? || x.Blank?
    ensures Chunk(x) == []
  {
  }

  lemma SourceLineFits(code: Listing, length: nat, base: nat, style: Style, head: string, k: nat, size: nat)
    requires Tiles(code, length) && Proper(style) && base + length <= 0xFFFF && base + length <= size
    requires k < |SourceItems(code, length, base, style, head)|
    ensures var items := SourceItems(code, length, base, style, head);
            PrintsInRange(items, k) && LineInside(items, k, size) && (k > 0 ==> Steady(items[k]))
  {
    hide Tiles, Proper, ItemsFrom, AddressOf, Belongs, Chunk;
    var items := SourceItems(code, length, base, style, head);
    if k == 0 {
      NoChunk(items[0]);
    } else {
      var p := SourceLineAt(code, length, base, style, head, k);
      BelongsMark(code, base, style, items[k], p);
      if items[k].Code? {
        TileOf(code, length, p);
        CodeChunk(items[k]);
      } else {
        NoChunk(items[k]);
      }
    }
  }

  lemma CodeChunk(x: Item)
    requires x.Code?
    ensures |Chunk(x)| <= Size(x.i)
  {
  }

  /** Assembling the source of a listing, in any layout, and loading the output puts the listing into memory. */
  lemma ListingLoads(code: Listing, length: nat, base: nat, style: Style, head: string, m: Bytes)
    requires Tiles(code, length) && Proper(style) && AllOk(code, base, style)
    requires base + length <= 0xFFFF && base + length <= |m| <= MAX_MEM
    ensures var items := SourceItems(code, length, base, style, head);
            WellWritten(items) && Assembles(items, m)
            && forall o: nat {:trigger code(o)} :: code(o).Some? ==> At(AfterLoading(items, m), base + o, code(o).value)
  {
    hide Tiles, Proper, AllOk, ItemsFrom, AddressOf, AddressFrom, WellWritten, Assembles, AfterLoading, InRange,
      NoOverlap, Inside, At, Holds;
    var items := SourceItems(code, length, base, style, head);
    SourceWritten(code, length, base, style, head);
    SourceFits(code, length, base, style, head, |m|);
    LoadsItems(items, m);
    StartsAtZero(code, length);
    forall o: nat | code(o).Some?
      ensures At(AfterLoading(items, m), base + o, code(o).value)
    {
      var k, d := ItemsReach(code, length, base, style, 0, o);
      SourceAt(code, length, base, style, head, k);
      FetchedFrom(items, m, AfterLoading(items, m), k + 1);
    }
  }

  /** The source assembles without error, and its output can be loaded. */
  ghost predicate Assembles(items: seq<Item>, m: Bytes)
    requires WellWritten(items)
  {
    var one, two := FirstPass(Lines(items)), SecondPass(Lines(items));
    && !one.failed && !two.failed && AllPrintable(two.records) && LoadLines(m, Texts(two.records)).ok
  }

  /** The memory after loading the output into `m`. */
  ghost function AfterLoading(items: seq<Item>, m: Bytes): Bytes
    requires WellWritten(items)
  {
    var two := SecondPass(Lines(items));
    if AllPrintable(two.records) then LoadLines(m, Texts(two.records)).m else m
  }

  lemma LoadsItems(items: seq<Item>, m: Bytes)
    requires WellWritten(items) && InRange(items) && NoOverlap(items) && Inside(items, |m|)
    ensures Assembles(items, m) && Holds(items, m, AfterLoading(items, m))
  {
    hide WellWritten, InRange, NoOverlap, Inside, FirstPass, SecondPass, LoadLines, Texts, Lines, Holds;
    ProgramLoads(items, m);
  }

  // ---------------------------------------------------------------------------------------------
  // The programs
  // ---------------------------------------------------------------------------------------------

  /** Where the labels of `rsum_list` stand. */
  const RSUM_LABELS: set<nat> := {0, 54}

  /** Where the labels of `copy_block` stand. */
  const COPY_LABELS: set<nat> := {0, 21, 80}

  /** Where the labels of `ncopy` stand, but for the one behind its last instruction. */
  const NCOPY_LABELS: set<nat> :=
    {0, 21, 142, 163, 184, 205, 226, 265, 442, 463, 484, 514, 595, 616, 646, 707, 737, 778}

  ghost predicate AllMarked(style: Style, labels: set<nat>) {
    forall o: nat {:trigger Marked(style, o)} :: o in labels ==> Marked(style, o)
  }

  lemma RsumLine(base: nat, o: nat)
    requires base <= 0xFFFF && RsumList.Listing(base, o).Some?
    ensures var i := RsumList.Listing(base, o).value;
            Valid(i) && (HasTarget(i) ==> Imm(i) >= base && Imm(i) - base in RSUM_LABELS)
  {
  }

  lemma RsumLabel(base: nat, o: nat)
    requires base <= 0xFFFF && o in RSUM_LABELS
    ensures RsumList.Listing(base, o).Some?
  {
  }

  lemma RsumOk(base: nat, style: Style)
    requires base <= 0xFFFF && AllMarked(style, RSUM_LABELS)
    ensures AllOk(RsumCode(base), base, style)
  {
    hide RsumList.Listing, Valid, Imm, Marked;
    var code := RsumCode(base);
    forall o: nat | code(o).Some?
      ensures LineOk(code, base, style, o)
    {
      RsumLine(base, o);
      if HasTarget(code(o).value) { RsumLabel(base, Imm(code(o).value) - base); }
    }
  }

  /** `rsum_list` from its source: with any lines without code, any labels besides its own, and any names for them. */
  lemma RsumFromSource(base: nat, style: Style, head: string, m: Bytes)
    requires Proper(style) && AllMarked(style, RSUM_LABELS)
    requires base + RsumList.LENGTH <= 0xFFFF && base + RsumList.LENGTH <= |m| <= MAX_MEM
    ensures var items := SourceItems(RsumCode(base), RsumList.LENGTH, base, style, head);
            WellWritten(items) && Assembles(items, m) && RsumList.Loaded(AfterLoading(items, m), base)
  {
    hide RsumList.Listing, Proper, AllMarked, WellWritten, Assembles, AfterLoading, At, Tiles, SourceItems, AllOk;
    RsumTiles(base);
    RsumOk(base, style);
    ListingLoads(RsumCode(base), RsumList.LENGTH, base, style, head, m);
    LoadedSize(SourceItems(RsumCode(base), RsumList.LENGTH, base, style, head), m);
    assert forall o: nat :: RsumList.Listing(base, o) == RsumCode(base)(o);
  }

  lemma CopyLine(base: nat, o: nat)
    requires base <= 0xFFFF && CopyBlock.Listing(base, o).Some?
    ensures var i := CopyBlock.Listing(base, o).value;
            Valid(i) && (HasTarget(i) ==> Imm(i) >= base && Imm(i) - base in COPY_LABELS)
  {
  }

  lemma CopyLabel(base: nat, o: nat)
    requires base <= 0xFFFF && o in COPY_LABELS
    ensures CopyBlock.Listing(base, o).Some?
  {
  }

  lemma CopyOk(base: nat, style: Style)
    requires base <= 0xFFFF && AllMarked(style, COPY_LABELS)
    ensures AllOk(CopyCode(base), base, style)
  {
    hide CopyBlock.Listing, Valid, Imm, Marked;
    var code := CopyCode(base);
    forall o: nat | code(o).Some?
      ensures LineOk(code, base, style, o)
    {
      CopyLine(base, o);
      if HasTarget(code(o).value) { CopyLabel(base, Imm(code(o).value) - base); }
    }
  }

  /** `copy_block` from its source, in the same way. */
  lemma CopyFromSource(base: nat, style: Style, head: string, m: Bytes)
    requires Proper(style) && AllMarked(style, COPY_LABELS)
    requires base + CopyBlock.LENGTH <= 0xFFFF && base + CopyBlock.LENGTH <= |m| <= MAX_MEM
    ensures var items := SourceItems(CopyCode(base), CopyBlock.LENGTH, base, style, head);
            WellWritten(items) && Assembles(items, m) && CopyBlock.Loaded(AfterLoading(items, m), base)
  {
    hide CopyBlock.Listing, Proper, AllMarked, WellWritten, Assembles, AfterLoading, At, Tiles, SourceItems, AllOk;
    CopyTiles(base);
    CopyOk(base, style);
    ListingLoads(CopyCode(base), CopyBlock.LENGTH, base, style, head, m);
    LoadedSize(SourceItems(CopyCode(base), CopyBlock.LENGTH, base, style, head), m);
    assert forall o: nat :: CopyBlock.Listing(base, o) == CopyCode(base)(o);
  }

  lemma NcopyLine(base: nat, o: nat)
    requires base <= 0xFFFF && Ncopy.Listing(base, o).Some?
    ensures var i := Ncopy.Listing(base, o).value;
            Valid(i) && (HasTarget(i) ==> Imm(i) >= base && Imm(i) - base in NCOPY_LABELS)
  {
  }

  lemma NcopyLabel(base: nat, o: nat)
    requires base <= 0xFFFF && o in NCOPY_LABELS
    ensures Ncopy.Listing(base, o).Some?
  {
  }

  lemma NcopyOk(base: nat, style: Style)
    requires base <= 0xFFFF && AllMarked(style, NCOPY_LABELS)
    ensures AllOk(NcopyCode(base), base, style)
  {
    hide Ncopy.Listing, Valid, Imm, Marked;
    var code := NcopyCode(base);
    forall o: nat | code(o).Some?
      ensures LineOk(code, base, style, o)
    {
      NcopyLine(base, o);
      if HasTarget(code(o).value) { NcopyLabel(base, Imm(code(o).value) - base); }
    }
  }

  /** `ncopy` from its source, in the same way. */
  lemma NcopyFromSource(base: nat, style: Style, head: string, m: Bytes)
    requires Proper(style) && AllMarked(style, NCOPY_LABELS)
    requires base + Ncopy.LENGTH <= 0xFFFF && base + Ncopy.LENGTH <= |m| <= MAX_MEM
    ensures var items := SourceItems(NcopyCode(base), Ncopy.LENGTH, base, style, head);
            WellWritten(items) && Assembles(items, m) && Ncopy.Loaded(AfterLoading(items, m), base)
  {
    hide Ncopy.Listing, Proper, AllMarked, WellWritten, Assembles, AfterLoading, At, Tiles, SourceItems, AllOk;
    NcopyTiles(base);
    NcopyOk(base, style);
    ListingLoads(NcopyCode(base), Ncopy.LENGTH, base, style, head, m);
    LoadedSize(SourceItems(NcopyCode(base), Ncopy.LENGTH, base, style, head), m);
    assert forall o: nat :: Ncopy.Listing(base, o) == NcopyCode(base)(o);
  }

  lemma LoadedSize(items: seq<Item>, m: Bytes)
    requires WellWritten(items) && Assembles(items, m)
    ensures |AfterLoading(items, m)| == |m|
  {
    hide WellWritten, FirstPass, SecondPass, Lines, Texts;
    var rs := SecondPass(Lines(items)).records;
    LoadSize(m, Texts(rs));
  }

  lemma {:induction false} LoadSize(m: Bytes, lines: seq<string>)
    ensures |LoadLines(m, lines).m| == |m|
  {
    hide ParseLine;
    if lines != [] { LoadSize(m, lines[..|lines| - 1]); }
  }
}
