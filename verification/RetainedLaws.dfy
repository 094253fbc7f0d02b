/** What is retained is a verbatim suffix and at most one cut message, and when it fits the budget. */
module RetainedLaws {
  import opened Options
  import opened RetainedMessages
  import opened Scans

  // ---------------------------------------------------------------- shares

  lemma {:induction false} MiddleLength(text: string, max: nat)
    ensures |TruncateMiddle(text, max)| == if max == 0 || |text| <= max then |text| else max
  {
  }

  /** The text that comes back whole because its share was nothing. */
  function ZeroShareText(shares: Shares, parts: seq<Part>, remaining: nat): nat {
    if parts == [] then 0 else
    var share := FirstShare(shares, parts, remaining);
    (if share == 0 then |PartText(parts[0])| else 0) + ZeroShareText(shares, parts[1..], remaining - share)
  }

  /** The characters given to parts that are shorter than their shares. */
  function UnusedShare(shares: Shares, parts: seq<Part>, remaining: nat): nat {
    if parts == [] then 0 else
    var share, length := FirstShare(shares, parts, remaining), |PartText(parts[0])|;
    (if share > length then share - length else 0) + UnusedShare(shares, parts[1..], remaining - share)
  }

  lemma {:induction false} PartsTextConcat(a: seq<Part>, b: seq<Part>)
    ensures PartsText(a + b) == PartsText(a) + PartsText(b)
  {
    if a != [] {
      PartsTextConcat(a[1..], b);
      assert (a + b)[1..] == a[1..] + b;
    } else {
      assert a + b == b;
    }
  }

  lemma {:induction false} CutPartLength(part: Part, share: nat)
    requires |PartText(part)| == 0 ==> share == 0
    ensures |PartsText(CutPart(part, share))|
         == if share == 0 || |PartText(part)| <= share then |PartText(part)| else share
  {
    if part.TextPart? {
      MiddleLength(part.text, share);
      var text := TruncateMiddle(part.text, share);
      assert PartsText([TextPart(text)]) == text + PartsText([TextPart(text)][1..]);
    } else {
      assert PartsText([part]) == "" + PartsText([part][1..]);
    }
  }

  /** Without text there is nothing to share and nothing to keep. */
  lemma {:induction false} NoTextNoShares(shares: Shares, parts: seq<Part>, remaining: nat)
    requires PartsText(parts) == ""
    ensures PartsText(TruncatedParts(shares, parts, remaining)) == ""
    ensures ZeroShareText(shares, parts, remaining) == 0 && UnusedShare(shares, parts, remaining) == 0
  {
    hide Share, TruncateMiddle, CutPart;
    if parts != [] {
      var share := FirstShare(shares, parts, remaining);
      assert PartText(parts[0]) == "" && share == 0;
      CutPartLength(parts[0], share);
      NoTextNoShares(shares, parts[1..], remaining);
      PartsTextConcat(CutPart(parts[0], share), TruncatedParts(shares, parts[1..], remaining));
    }
  }

  /**
   Truncation keeps the whole limit, but for what is given to parts that are shorter than their share,
   and on top of it the parts that were given nothing.
   */
  lemma {:induction false} TruncatedLength(shares: Shares, parts: seq<Part>, remaining: nat)
    requires PartsText(parts) != ""
    ensures |PartsText(TruncatedParts(shares, parts, remaining))| + UnusedShare(shares, parts, remaining)
         == remaining + ZeroShareText(shares, parts, remaining)
    ensures PartsText(TruncatedParts(shares, parts, remaining)) != ""
  {
    hide Share, TruncateMiddle, CutPart;
    var share := FirstShare(shares, parts, remaining);
    CutPartLength(parts[0], share);
    if PartsText(parts[1..]) == "" {
      NoTextNoShares(shares, parts[1..], remaining - share);
    } else {
      TruncatedLength(shares, parts[1..], remaining - share);
    }
    PartsTextConcat(CutPart(parts[0], share), TruncatedParts(shares, parts[1..], remaining - share));
  }

  // ---------------------------------------------------------------- the budget

  /** The message at which the budget runs out, and what is left of the budget there. */
  datatype Overflow = Overflow(item: Item, remaining: int)

  function OverflowOf(blank: Blank, items: seq<Item>, remaining: int): (overflow: Option<Overflow>)
    ensures overflow.Some? ==> 0 < overflow.value.remaining <= remaining
    ensures overflow.Some? ==> overflow.value.remaining < ApproximateTokens(overflow.value.item)
    ensures overflow.Some? ==> IsWanted(blank, overflow.value.item)
  {
    if items == [] || remaining <= 0 then None else
    var front, last := items[..|items| - 1], items[|items| - 1];
    if !IsWanted(blank, last) then OverflowOf(blank, front, remaining)
    else if ApproximateTokens(last) <= remaining then OverflowOf(blank, front, remaining - ApproximateTokens(last))
    else Some(Overflow(last, remaining))
  }

  /** The characters of the cut message that come back whole because their share of the limit was nothing. */
  function Excess(shares: Shares, overflow: Overflow): nat
    requires overflow.remaining >= 0
  {
    if overflow.item.content.Parts? then ZeroShareText(shares, overflow.item.content.parts, 4 * overflow.remaining)
    else 0
  }

  /** The characters of the limit that were given to parts of the cut message shorter than their share. */
  function Unused(shares: Shares, overflow: Overflow): nat
    requires overflow.remaining >= 0
  {
    if overflow.item.content.Parts? then UnusedShare(shares, overflow.item.content.parts, 4 * overflow.remaining)
    else 0
  }

  function TotalTokens(items: seq<Item>): nat {
    if items == [] then 0 else TotalTokens(items[..|items| - 1]) + ApproximateTokens(items[|items| - 1])
  }

  lemma {:induction false} ManyTokens(item: Item, limit: nat)
    requires limit > 0 && ApproximateTokens(item) > limit
    ensures |ItemText(item)| > 4 * limit
  {
  }

  /** The text of a cut message: what was left of the budget, less what was not used, and the excess. */
  lemma {:induction false} CutLength(shares: Shares, overflow: Overflow)
    requires overflow.item.isMessage && 0 < overflow.remaining < ApproximateTokens(overflow.item)
    ensures Truncated(shares, overflow.item, overflow.remaining).Some?
    ensures |ItemText(Truncated(shares, overflow.item, overflow.remaining).value)| + Unused(shares, overflow)
         == 4 * overflow.remaining + Excess(shares, overflow)
  {
    var item, limit := overflow.item, overflow.remaining;
    ManyTokens(item, limit);
    match item.content
    case Whole(text) =>
      MiddleLength(text, 4 * limit);
    case Parts(parts) =>
      TruncatedLength(shares, parts, 4 * limit);
      assert TruncatedParts(shares, parts, 4 * limit) != [];
    case NoContent =>
  }

  lemma {:induction false} CutFitsIff(shares: Shares, overflow: Overflow)
    requires overflow.item.isMessage && 0 < overflow.remaining < ApproximateTokens(overflow.item)
    ensures Truncated(shares, overflow.item, overflow.remaining).Some?
    ensures ApproximateTokens(Truncated(shares, overflow.item, overflow.remaining).value) <= overflow.remaining
       <==> Excess(shares, overflow) <= Unused(shares, overflow)
  {
    hide Truncated, ItemText, Excess, Unused;
    CutLength(shares, overflow);
  }

  lemma {:induction false} TotalSnoc(items: seq<Item>, item: Item)
    ensures TotalTokens(items + [item]) == TotalTokens(items) + ApproximateTokens(item)
  {
    assert (items + [item])[..|items|] == items;
  }

  /** The messages retained before the cut one use up the rest of the budget exactly. */
  lemma {:induction false} RetainedTokens(shares: Shares, blank: Blank, items: seq<Item>, remaining: nat)
    ensures var overflow := OverflowOf(blank, items, remaining);
            var total := TotalTokens(Retained(shares, blank, items, remaining));
            match overflow
            case None => total <= remaining
            case Some(over) =>
              && Truncated(shares, over.item, over.remaining).Some?
              && total == remaining - over.remaining
                          + ApproximateTokens(Truncated(shares, over.item, over.remaining).value)
  {
    hide ApproximateTokens, Truncated, ItemText, CeilDiv;
    if items == [] || remaining <= 0 {
      assert TotalTokens([]) == 0;
    } else {
      var front, last := items[..|items| - 1], items[|items| - 1];
      if !IsWanted(blank, last) {
        RetainedTokens(shares, blank, front, remaining);
      } else if ApproximateTokens(last) <= remaining {
        var left := remaining - ApproximateTokens(last);
        RetainedTokens(shares, blank, front, left);
        TotalSnoc(Retained(shares, blank, front, left), last);
      } else {
        CutLength(shares, Overflow(last, remaining));
        var cut := Truncated(shares, last, remaining).value;
        assert [] + [cut] == [cut];
        TotalSnoc([], cut);
      }
    }
  }

  /**
   Whatever the shares are, the retained messages fit the budget exactly when the text of the cut message
   that came back whole for want of a share is not longer than what its other parts left unused.
   */
  lemma {:induction false} BudgetKeptIff(shares: Shares, blank: Blank, items: seq<Item>, maxTokens: nat)
    ensures TotalTokens(Retained(shares, blank, items, maxTokens)) <= maxTokens
       <==> var overflow := OverflowOf(blank, items, maxTokens);
            overflow.None? || Excess(shares, overflow.value) <= Unused(shares, overflow.value)
  {
    hide ApproximateTokens, Truncated, Excess, Unused;
    RetainedTokens(shares, blank, items, maxTokens);
    var overflow := OverflowOf(blank, items, maxTokens);
    if overflow.Some? {
      CutFitsIff(shares, overflow.value);
    }
  }

  /** What is left of the limit when the i-th part is reached. */
  function LeftAt(shares: Shares, parts: seq<Part>, i: nat, remaining: nat): nat
    requires i <= |parts|
  {
    if i == 0 then remaining
    else LeftAt(shares, parts[1..], i - 1, remaining - FirstShare(shares, parts, remaining))
  }

  /** The i-th part has text and is given nothing. */
  predicate Starves(shares: Shares, parts: seq<Part>, i: nat, remaining: nat)
    requires i < |parts|
  {
    PartText(parts[i]) != "" && FirstShare(shares, parts[i..], LeftAt(shares, parts, i, remaining)) == 0
  }

  lemma {:induction false} NextStarves(shares: Shares, parts: seq<Part>, i: nat, remaining: nat)
    requires i + 1 < |parts|
    ensures Starves(shares, parts, i + 1, remaining)
       <==> Starves(shares, parts[1..], i, remaining - FirstShare(shares, parts, remaining))
  {
    hide FirstShare, PartText;
    assert parts[1..][i..] == parts[i + 1..];
  }

  lemma {:induction false} FirstStarves(shares: Shares, parts: seq<Part>, remaining: nat)
    requires parts != []
    ensures Starves(shares, parts, 0, remaining)
       <==> PartText(parts[0]) != "" && FirstShare(shares, parts, remaining) == 0
  {
    hide FirstShare, PartText;
    assert parts[0..] == parts;
  }

  lemma {:induction false} NobodyStarves(shares: Shares, parts: seq<Part>, remaining: nat)
    requires forall i: nat | i < |parts| :: !Starves(shares, parts, i, remaining)
    ensures ZeroShareText(shares, parts, remaining) == 0
  {
    hide FirstShare, PartText, Starves;
    if parts != [] {
      var rest, left := parts[1..], remaining - FirstShare(shares, parts, remaining);
      FirstStarves(shares, parts, remaining);
      forall i: nat | i < |rest| ensures !Starves(shares, rest, i, left) {
        NextStarves(shares, parts, i, remaining);
      }
      NobodyStarves(shares, rest, left);
    }
  }

  /** Shares of at least one character keep the budget, however they are rounded. */
  lemma {:induction false} BudgetKeptWithoutStarving(shares: Shares, blank: Blank, items: seq<Item>, maxTokens: nat)
    requires var overflow := OverflowOf(blank, items, maxTokens);
             overflow.Some? && overflow.value.item.content.Parts? ==>
               var parts := overflow.value.item.content.parts;
               forall i: nat | i < |parts| :: !Starves(shares, parts, i, 4 * overflow.value.remaining)
    ensures TotalTokens(Retained(shares, blank, items, maxTokens)) <= maxTokens
  {
    hide Starves, TotalTokens, Retained;
    BudgetKeptIff(shares, blank, items, maxTokens);
    var overflow := OverflowOf(blank, items, maxTokens);
    if overflow.Some? && overflow.value.item.content.Parts? {
      NobodyStarves(shares, overflow.value.item.content.parts, 4 * overflow.value.remaining);
    }
  }

  // ---------------------------------------------------------------- which messages

  /** The user messages with text, in order. */
  function Wanted(blank: Blank, items: seq<Item>): seq<Item> {
    if items == [] then [] else
    var front, last := items[..|items| - 1], items[|items| - 1];
    if IsWanted(blank, last) then Wanted(blank, front) + [last] else Wanted(blank, front)
  }

  lemma {:induction false} SuffixSnoc(cut: seq<Item>, items: seq<Item>, item: Item, k: nat)
    requires k <= |items|
    ensures (items + [item])[k..] == items[k..] + [item]
    ensures (cut + items[k..]) + [item] == cut + (items + [item])[k..]
    ensures k > 0 ==> (items + [item])[k - 1] == items[k - 1]
  {
  }

  /** What the last message does to the messages wanted and retained. */
  lemma {:induction false} LastMessage(shares: Shares, blank: Blank, items: seq<Item>, remaining: nat)
    requires items != [] && remaining > 0
    ensures var front, last, tokens := items[..|items| - 1], items[|items| - 1], ApproximateTokens(items[|items| - 1]);
            if !IsWanted(blank, last) then
              && Wanted(blank, items) == Wanted(blank, front)
              && Retained(shares, blank, items, remaining) == Retained(shares, blank, front, remaining)
              && OverflowOf(blank, items, remaining) == OverflowOf(blank, front, remaining)
            else
              && Wanted(blank, items) == Wanted(blank, front) + [last]
              && if tokens <= remaining then
                   && Retained(shares, blank, items, remaining)
                      == Retained(shares, blank, front, remaining - tokens) + [last]
                   && OverflowOf(blank, items, remaining) == OverflowOf(blank, front, remaining - tokens)
                 else
                   && Truncated(shares, last, remaining).Some?
                   && Retained(shares, blank, items, remaining) == [Truncated(shares, last, remaining).value]
                   && OverflowOf(blank, items, remaining) == Some(Overflow(last, remaining))
  {
    var last := items[|items| - 1];
    if IsWanted(blank, last) && ApproximateTokens(last) > remaining {
      CutLength(shares, Overflow(last, remaining));
    }
    hide Truncated, ApproximateTokens, ItemText;
  }

  /**
   A verbatim suffix of the wanted messages, after the one before it cut to the rest of the budget if
   the budget ran out there. Nothing is left out while budget remains.
   */
  predicate IsSuffixFrom(shares: Shares, k: nat, wanted: seq<Item>, retained: seq<Item>, overflow: Option<Overflow>,
                         maxTokens: nat)
    requires k <= |wanted|
  {
    match overflow
    case Some(Overflow(item, remaining)) =>
      && k > 0 && wanted[k - 1] == item && Truncated(shares, item, remaining).Some?
      && retained == [Truncated(shares, item, remaining).value] + wanted[k..]
    case None =>
      && retained == wanted[k..]
      && (k > 0 ==> TotalTokens(wanted[k..]) == maxTokens)
  }

  lemma {:induction false} SuffixGrows(shares: Shares, k: nat, wanted: seq<Item>, retained: seq<Item>,
                                       overflow: Option<Overflow>, left: nat, last: Item)
    requires k <= |wanted| && IsSuffixFrom(shares, k, wanted, retained, overflow, left)
    ensures IsSuffixFrom(shares, k, wanted + [last], retained + [last], overflow, left + ApproximateTokens(last))
  {
    hide Truncated, ApproximateTokens, TotalTokens;
    TotalSnoc(wanted[k..], last);
    match overflow
    case Some(Overflow(item, remaining)) =>
      SuffixSnoc([Truncated(shares, item, remaining).value], wanted, last, k);
    case None =>
      SuffixSnoc([], wanted, last, k);
  }

  /** The retained messages are a suffix of the wanted ones, and at most one cut message before it. */
  lemma {:induction false} RetainedIsSuffix(shares: Shares, blank: Blank, items: seq<Item>, maxTokens: nat)
    returns (k: nat)
    ensures k <= |Wanted(blank, items)|
    ensures IsSuffixFrom(shares, k, Wanted(blank, items), Retained(shares, blank, items, maxTokens),
                         OverflowOf(blank, items, maxTokens), maxTokens)
  {
    hide ApproximateTokens, Truncated, IsWanted;
    if items == [] || maxTokens == 0 {
      k := |Wanted(blank, items)|;
      assert Wanted(blank, items)[k..] == [];
    } else {
      var front, last := items[..|items| - 1], items[|items| - 1];
      LastMessage(shares, blank, items, maxTokens);
      if !IsWanted(blank, last) {
        k := RetainedIsSuffix(shares, blank, front, maxTokens);
      } else if ApproximateTokens(last) <= maxTokens {
        hide *;
        var left := maxTokens - ApproximateTokens(last);
        k := RetainedIsSuffix(shares, blank, front, left);
        SuffixGrows(shares, k, Wanted(blank, front), Retained(shares, blank, front, left),
                    OverflowOf(blank, front, left), left, last);
      } else {
        k := |Wanted(blank, items)|;
        assert Wanted(blank, items)[k..] == [];
      }
    }
  }

  // ---------------------------------------------------------------- what a cut keeps

  /**
   A text that does not fit keeps its two ends, about equal, around one mark; a limit of one keeps its
   last character.
   */
  lemma {:induction false} MiddleIs(text: string, max: nat) returns (head: string, tail: string)
    ensures |text| <= max || max == 0 ==> TruncateMiddle(text, max) == text
    ensures |text| > max == 1 ==> TruncateMiddle(text, max) == [text[|text| - 1]]
    ensures |text| > max > 1 ==>
              && TruncateMiddle(text, max) == head + "…" + tail && |head| + |tail| == max - 1
              && |tail| <= |head| <= |tail| + 1
              && head == text[..|head|] && tail == text[|text| - |tail|..]
  {
    head, tail := "", "";
    if |text| > max > 1 {
      head, tail := text[..CeilDiv(max - 1, 2)], text[|text| - (max - 1) / 2..];
    }
  }

  /** A part and the characters that it is given. */
  datatype Cut = Cut(part: Part, share: nat)

  /** The parts with what each is given, in order. */
  function Cuts(shares: Shares, parts: seq<Part>, remaining: nat): (cuts: seq<Cut>)
    ensures |cuts| == |parts|
    ensures forall i :: 0 <= i < |parts| ==> cuts[i].part == parts[i]
  {
    seq(|parts|, i requires 0 <= i < |parts| =>
      assert parts[i..] != [];
      Cut(parts[i], FirstShare(shares, parts[i..], LeftAt(shares, parts, i, remaining))))
  }

  /** What is left of a part: other parts stay, a text keeps its ends, and an empty text goes. */
  function PieceIn(cut: Cut): Option<Part> {
    if cut.part.OtherPart? then Some(cut.part)
    else if cut.part.text == "" then None
    else Some(TextPart(TruncateMiddle(cut.part.text, cut.share)))
  }

  /** A cut message keeps its parts in order, each cut to what it is given. */
  lemma {:induction false} PartsAreCut(shares: Shares, parts: seq<Part>, remaining: nat)
    ensures TruncatedParts(shares, parts, remaining) == Picked(Cuts(shares, parts, remaining), PieceIn)
  {
    hide *;
    CutsStep(shares, parts, remaining);
    if parts != [] {
      var share, rest := FirstShare(shares, parts, remaining), parts[1..];
      PartsAreCut(shares, rest, remaining - share);
      OnePiece(parts[0], share);
      PickedConcat([Cut(parts[0], share)], Cuts(shares, rest, remaining - share), PieceIn);
    }
  }

  lemma {:induction false} OnePiece(part: Part, share: nat)
    ensures Picked([Cut(part, share)], PieceIn) == CutPart(part, share)
  {
    PickedSnoc([], Cut(part, share), PieceIn);
    assert [] + [Cut(part, share)] == [Cut(part, share)];
    assert Picked<Cut, Part>([], PieceIn) == [];
    if part.TextPart? { MiddleLength(part.text, share); }
  }

  lemma {:induction false} CutsStep(shares: Shares, parts: seq<Part>, remaining: nat)
    ensures parts == [] ==> TruncatedParts(shares, parts, remaining) == Picked(Cuts(shares, parts, remaining), PieceIn)
    ensures parts != [] ==>
              var share := FirstShare(shares, parts, remaining);
              && Cuts(shares, parts, remaining) == [Cut(parts[0], share)] + Cuts(shares, parts[1..], remaining - share)
              && TruncatedParts(shares, parts, remaining)
                 == CutPart(parts[0], share) + TruncatedParts(shares, parts[1..], remaining - share)
  {
    hide FirstShare, CutPart;
    if parts != [] {
      var rest := parts[1..];
      assert parts[0..] == parts;
      forall i: nat | i < |rest| ensures rest[i..] == parts[i + 1..] {}
    }
  }

  // ---------------------------------------------------------------- limits

  /** Two parts of text too long for the budget break it whenever the first is given nothing. */
  lemma {:induction false} ZeroShareBreaksBudget(shares: Shares, blank: Blank, first: string, second: string,
                                                 maxTokens: nat)
    requires first != "" && second != "" && !blank(first + second)
    requires |first| + |second| > 4 * maxTokens > 0
    requires shares(|first|, |first| + |second|, 4 * maxTokens) == 0
    ensures var item := Item(true, true, Parts([TextPart(first), TextPart(second)]));
            TotalTokens(Retained(shares, blank, [item], maxTokens)) > maxTokens
  {
    var parts := [TextPart(first), TextPart(second)];
    var item := Item(true, true, Parts(parts));
    assert parts[1..] == [TextPart(second)] && parts[1..][1..] == [];
    assert PartsText(parts[1..]) == second + PartsText([]);
    assert PartsText(parts) == first + second;
    assert FirstShare(shares, parts, 4 * maxTokens) == 0;
    assert FirstShare(shares, parts[1..], 4 * maxTokens) == 4 * maxTokens;
    assert ItemText(item) == first + second;
    assert [item][..0] == [];
    var limit := 4 * maxTokens;
    assert UnusedShare(shares, parts[1..], limit) == if limit > |second| then limit - |second| else 0;
    assert ZeroShareText(shares, parts[1..], limit) == 0;
    assert Unused(shares, Overflow(item, maxTokens)) == UnusedShare(shares, parts[1..], limit);
    assert Excess(shares, Overflow(item, maxTokens)) == |first|;
    BudgetKeptIff(shares, blank, [item], maxTokens);
  }

  /** The integer nearest to a fraction, the even one of two. */
  function Nearest(a: nat, b: nat): nat
    requires b > 0
  {
    var q, r := a / b, a % b;
    if 2 * r < b || (2 * r == b && q % 2 == 0) then q else q + 1
  }

  /** 2 / 392 with 53 significant bits, in units of 2 to the power of -60. */
  const QUOTIENT: nat := Nearest(2 * 0x1000_0000_0000_0000, 392)

  /** Its product with 196 with 53 significant bits, in units of 2 to the power of -53. */
  const PRODUCT: nat := Nearest(QUOTIENT * 196, 0x80)

  /** In double precision the share of 2 characters of 392 is zero, though 2 * 196 / 392 is 1. */
  lemma {:induction false} RoundedShareIsZero()
    ensures 0x10_0000_0000_0000 <= QUOTIENT < 0x20_0000_0000_0000
    ensures 0x10_0000_0000_0000 <= PRODUCT < 0x20_0000_0000_0000
    ensures PRODUCT / 0x20_0000_0000_0000 == 0
  {
    assert QUOTIENT == 5_882_252_574_524_729;
    assert PRODUCT == 0x20_0000_0000_0000 - 1;
  }

  /** Texts of 2 and 390 characters break a budget of 49 tokens for want of a bit. */
  lemma {:induction false} RoundingBreaksBudget(shares: Shares, blank: Blank, first: string, second: string)
    requires |first| == 2 && |second| == 390 && !blank(first + second)
    requires shares(2, 392, 196) == PRODUCT / 0x20_0000_0000_0000
    ensures var item := Item(true, true, Parts([TextPart(first), TextPart(second)]));
            TotalTokens(Retained(shares, blank, [item], 49)) > 49
  {
    RoundedShareIsZero();
    hide *;
    ZeroShareBreaksBudget(shares, blank, first, second, 49);
  }
}
