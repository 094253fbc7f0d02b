/**
 The user messages kept beside a compaction: the most recent ones that fit a token budget, and the
 one at which the budget runs out, truncated. Text lengths count UTF-16 units. The share of a text
 part is a rounded product of floating-point numbers, so the function that computes it is a parameter.
 */
module RetainedMessages {
  import opened Options

  datatype Part = TextPart(text: string) | OtherPart
  datatype Content = Whole(text: string) | Parts(parts: seq<Part>) | NoContent
  datatype Item = Item(isMessage: bool, isUser: bool, content: Content)

  type Blank = string -> bool

  function PartText(part: Part): string {
    if part.TextPart? then part.text else ""
  }

  function PartsText(parts: seq<Part>): string {
    if parts == [] then "" else PartText(parts[0]) + PartsText(parts[1..])
  }

  function ItemText(item: Item): string {
    if !item.isMessage then "" else
    match item.content
    case Whole(text) => text
    case Parts(parts) => PartsText(parts)
    case NoContent => ""
  }

  function CeilDiv(a: nat, b: nat): nat
    requires b > 0
  {
    (a + b - 1) / b
  }

  function ApproximateTokens(item: Item): (tokens: nat)
    ensures tokens >= 1
  {
    var tokens := CeilDiv(|ItemText(item)|, 4);
    if tokens < 1 then 1 else tokens
  }

  /** The text with its middle cut out; a limit of zero returns the whole text, as `slice(-0)` does. */
  function TruncateMiddle(text: string, max: nat): string {
    if |text| <= max then text
    else if max == 0 then text
    else if max == 1 then text[|text| - 1..]
    else
      var available := max - 1;
      text[..CeilDiv(available, 2)] + "…" + text[|text| - available / 2..]
  }

  // ---------------------------------------------------------------- truncating a message

  /**
   What rounding to the nearest number leaves certain of length / remainingText * remaining, rounded
   down: it is at most what remains, all of it for the last text, and nothing for an empty text.
   */
  ghost predicate Fair(shares: (nat, nat, nat) -> nat) {
    forall length: nat, whole: nat, remaining: nat | length <= whole && whole > 0 ::
      && shares(length, whole, remaining) <= remaining
      && (length == whole ==> shares(length, whole, remaining) == remaining)
      && (length == 0 ==> shares(length, whole, remaining) == 0)
  }

  type Shares = shares: (nat, nat, nat) -> nat | Fair(shares)
    witness (length: nat, whole: nat, remaining: nat) => if length == whole then remaining else 0

  /** The characters that a text part is given. */
  function Share(shares: Shares, length: nat, remainingText: nat, remaining: nat): (share: nat)
    requires length <= remainingText
    ensures share <= remaining
    ensures length == remainingText > 0 ==> share == remaining
    ensures length == 0 ==> share == 0
  {
    if remainingText == 0 then 0 else shares(length, remainingText, remaining)
  }

  /** The characters given to the first part, and what is left of it. */
  function FirstShare(shares: Shares, parts: seq<Part>, remaining: nat): (share: nat)
    requires parts != []
    ensures share <= remaining
    ensures |PartText(parts[0])| == 0 ==> share == 0
    ensures |PartText(parts[0])| == |PartsText(parts)| > 0 ==> share == remaining
  {
    if parts[0].OtherPart? then 0 else Share(shares, |parts[0].text|, |PartsText(parts)|, remaining)
  }

  function CutPart(part: Part, share: nat): seq<Part> {
    if part.OtherPart? then [part]
    else if TruncateMiddle(part.text, share) != "" then [TextPart(TruncateMiddle(part.text, share))]
    else []
  }

  /** The parts after truncation: each text part is cut to its share of what is left, and dropped when empty. */
  function TruncatedParts(shares: Shares, parts: seq<Part>, remaining: nat): seq<Part> {
    if parts == [] then [] else
    var share := FirstShare(shares, parts, remaining);
    CutPart(parts[0], share) + TruncatedParts(shares, parts[1..], remaining - share)
  }

  function Truncated(shares: Shares, item: Item, maxTokens: int): Option<Item> {
    if !item.isMessage || maxTokens <= 0 then None else
    match item.content
    case Whole(text) =>
      var cut := TruncateMiddle(text, 4 * maxTokens);
      if cut != "" then Some(item.(content := Whole(cut))) else None
    case Parts(parts) =>
      var cut := TruncatedParts(shares, parts, 4 * maxTokens);
      if cut != [] then Some(item.(content := Parts(cut))) else None
    case NoContent => Some(item)
  }

  lemma {:induction false} PartsTextSplits(parts: seq<Part>, i: nat)
    requires i <= |parts|
    ensures |PartsText(parts)| == |PartsText(parts[..i])| + |PartsText(parts[i..])|
  {
    if i > 0 {
      PartsTextSplits(parts[1..], i - 1);
      assert parts[..i][1..] == parts[1..][..i - 1];
      assert parts[1..][i - 1..] == parts[i..];
    } else {
      assert parts[i..] == parts;
    }
  }

  lemma {:induction false} PartsTextSnoc(parts: seq<Part>, i: nat)
    requires i < |parts|
    ensures |PartsText(parts[..i + 1])| == |PartsText(parts[..i])| + |PartText(parts[i])|
    ensures |PartsText(parts[i..])| == |PartText(parts[i])| + |PartsText(parts[i + 1..])|
  {
    PartsTextSplits(parts, i);
    PartsTextSplits(parts, i + 1);
    assert parts[i..][1..] == parts[i + 1..];
  }

  /** The loop over the parts with its running counters. */
  method TruncateParts(shares: Shares, parts: seq<Part>, maxCharacters: nat) returns (truncatedContent: seq<Part>)
    ensures truncatedContent == TruncatedParts(shares, parts, maxCharacters)
  {
    hide *;
    var totalText, consumed, remainingCharacters: nat := |PartsText(parts)|, 0, maxCharacters;
    truncatedContent := [];
    NoneCut(shares, parts, maxCharacters);
    for i := 0 to |parts|
      invariant consumed == |PartsText(parts[..i])|
      invariant TruncatedParts(shares, parts, maxCharacters)
             == WithRest(shares, truncatedContent, parts, i, remainingCharacters)
    {
      PartsTextSplits(parts, i);
      PartsTextSnoc(parts, i);
      NextPart(shares, truncatedContent, parts, i, remainingCharacters);
      NextShare(shares, parts, i, remainingCharacters);
      OneCut(truncatedContent, parts[i], FirstShare(shares, parts[i..], remainingCharacters));
      if parts[i].OtherPart? {
        truncatedContent := truncatedContent + [parts[i]];
        continue;
      }
      var remainingText := totalText - consumed;
      var partBudget := Share(shares, |parts[i].text|, remainingText, remainingCharacters);
      var text := TruncateMiddle(parts[i].text, partBudget);
      consumed := consumed + |parts[i].text|;
      remainingCharacters := remainingCharacters - partBudget;
      if text != "" { truncatedContent := truncatedContent + [TextPart(text)]; }
    }
    AllCut(shares, truncatedContent, parts, remainingCharacters);
  }

  /** The parts cut so far and those still ahead. */
  function WithRest(shares: Shares, cut: seq<Part>, parts: seq<Part>, i: nat, remaining: nat): seq<Part>
    requires i <= |parts|
  {
    cut + TruncatedParts(shares, parts[i..], remaining)
  }

  /** The parts cut so far, with one more. */
  function WithCut(cut: seq<Part>, part: Part, share: nat): seq<Part> {
    if part.OtherPart? then cut + [part]
    else if TruncateMiddle(part.text, share) != "" then cut + [TextPart(TruncateMiddle(part.text, share))]
    else cut
  }

  lemma {:induction false} NextPart(shares: Shares, cut: seq<Part>, parts: seq<Part>, i: nat, remaining: nat)
    requires i < |parts|
    ensures WithRest(shares, cut, parts, i, remaining)
         == WithRest(shares, WithCut(cut, parts[i], FirstShare(shares, parts[i..], remaining)), parts, i + 1,
                     remaining - FirstShare(shares, parts[i..], remaining))
  {
    hide TruncatedParts, CutPart, WithCut, FirstShare;
    CutStep(shares, parts, i, remaining);
    var share := FirstShare(shares, parts[i..], remaining);
    AppendCut(cut, parts[i], share, TruncatedParts(shares, parts[i + 1..], remaining - share));
  }

  lemma {:induction false} OneCut(cut: seq<Part>, part: Part, share: nat)
    ensures WithCut(cut, part, share) ==
              if part.OtherPart? then cut + [part]
              else if TruncateMiddle(part.text, share) != "" then cut + [TextPart(TruncateMiddle(part.text, share))]
              else cut
  {
  }

  lemma {:induction false} NextShare(shares: Shares, parts: seq<Part>, i: nat, remaining: nat)
    requires i < |parts|
    ensures |PartText(parts[i])| <= |PartsText(parts[i..])|
    ensures |PartText(parts[i])| == if parts[i].TextPart? then |parts[i].text| else 0
    ensures FirstShare(shares, parts[i..], remaining)
         == if parts[i].OtherPart? then 0 else Share(shares, |parts[i].text|, |PartsText(parts[i..])|, remaining)
  {
    hide Share;
    PartsTextSnoc(parts, i);
    assert parts[i..][0] == parts[i];
  }

  lemma {:induction false} CutStep(shares: Shares, parts: seq<Part>, i: nat, remaining: nat)
    requires i < |parts|
    ensures var share := FirstShare(shares, parts[i..], remaining);
            TruncatedParts(shares, parts[i..], remaining) ==
            CutPart(parts[i], share) + TruncatedParts(shares, parts[i + 1..], remaining - share)
  {
    hide Share, CutPart, PartsText;
    assert parts[i..][0] == parts[i] && parts[i..][1..] == parts[i + 1..];
  }

  lemma {:induction false} AppendCut(cut: seq<Part>, part: Part, share: nat, rest: seq<Part>)
    ensures cut + (CutPart(part, share) + rest) == WithCut(cut, part, share) + rest
  {
    hide TruncateMiddle;
    if part.TextPart? && TruncateMiddle(part.text, share) == "" {
      assert [] + rest == rest;
    }
  }

  lemma {:induction false} NoneCut(shares: Shares, parts: seq<Part>, remaining: nat)
    ensures |PartsText(parts[..0])| == 0
    ensures WithRest(shares, [], parts, 0, remaining) == TruncatedParts(shares, parts, remaining)
  {
    assert parts[0..] == parts;
  }

  lemma {:induction false} AllCut(shares: Shares, cut: seq<Part>, parts: seq<Part>, remaining: nat)
    ensures WithRest(shares, cut, parts, |parts|, remaining) == cut
  {
    assert parts[|parts|..] == [];
  }

  method TruncateMessage(shares: Shares, item: Item, maxTokens: int) returns (truncated: Option<Item>)
    ensures truncated == Truncated(shares, item, maxTokens)
  {
    if !item.isMessage || maxTokens <= 0 { return None; }
    var remainingCharacters: nat := 4 * maxTokens;
    if item.content.Whole? {
      var cut := TruncateMiddle(item.content.text, remainingCharacters);
      return if cut != "" then Some(item.(content := Whole(cut))) else None;
    }
    if !item.content.Parts? { return Some(item); }
    var truncatedContent := TruncateParts(shares, item.content.parts, remainingCharacters);
    return if truncatedContent != [] then Some(item.(content := Parts(truncatedContent))) else None;
  }

  // ---------------------------------------------------------------- retaining messages

  predicate IsWanted(blank: Blank, item: Item) {
    item.isMessage && item.isUser && !blank(ItemText(item))
  }

  function Retained(shares: Shares, blank: Blank, items: seq<Item>, remaining: int): seq<Item> {
    if items == [] || remaining <= 0 then [] else
    var front, last := items[..|items| - 1], items[|items| - 1];
    if !IsWanted(blank, last) then Retained(shares, blank, front, remaining)
    else if ApproximateTokens(last) <= remaining then
      Retained(shares, blank, front, remaining - ApproximateTokens(last)) + [last]
    else match Truncated(shares, last, remaining)
         case Some(cut) => [cut]
         case None => []
  }

  function Reversed(items: seq<Item>): seq<Item> {
    seq(|items|, i requires 0 <= i < |items| => items[|items| - 1 - i])
  }

  lemma {:induction false} ReversedSnoc(items: seq<Item>, item: Item)
    ensures Reversed(items + [item]) == [item] + Reversed(items)
  {
  }

  /** What is still to be retained from the first i items, and what is retained already. */
  function StillRetained(shares: Shares, blank: Blank, items: seq<Item>, i: nat, remaining: int,
                         retained: seq<Item>): seq<Item>
    requires i <= |items|
  {
    Retained(shares, blank, items[..i], remaining) + Reversed(retained)
  }

  lemma {:induction false} RetainStep(shares: Shares, blank: Blank, items: seq<Item>, i: nat, remaining: int,
                                      retained: seq<Item>)
    requires i < |items| && remaining > 0
    ensures var tokens, cut := ApproximateTokens(items[i]), Truncated(shares, items[i], remaining);
            StillRetained(shares, blank, items, i + 1, remaining, retained) ==
              if !IsWanted(blank, items[i]) then StillRetained(shares, blank, items, i, remaining, retained)
              else if tokens <= remaining then
                StillRetained(shares, blank, items, i, remaining - tokens, retained + [items[i]])
              else
                StillRetained(shares, blank, items, i, 0, if cut.Some? then retained + [cut.value] else retained)
  {
    hide ApproximateTokens, Truncated, IsWanted;
    assert items[..i + 1][..i] == items[..i];
    ReversedSnoc(retained, items[i]);
    var cut := Truncated(shares, items[i], remaining);
    if cut.Some? { ReversedSnoc(retained, cut.value); }
    var front := Retained(shares, blank, items[..i], remaining - ApproximateTokens(items[i]));
    assert (front + [items[i]]) + Reversed(retained) == front + ([items[i]] + Reversed(retained));
    assert forall x: seq<Item> :: [] + x == x;
  }

  lemma {:induction false} RetainEnds(shares: Shares, blank: Blank, items: seq<Item>, i: nat, remaining: int,
                                      retained: seq<Item>)
    requires i <= |items|
    ensures StillRetained(shares, blank, items, |items|, remaining, []) == Retained(shares, blank, items, remaining)
    ensures i == 0 || remaining <= 0 ==>
              StillRetained(shares, blank, items, i, remaining, retained) == Reversed(retained)
  {
    assert items[..|items|] == items;
  }

  method RetainRecentUserMessages(shares: Shares, blank: Blank, items: seq<Item>, maxTokens: int)
    returns (result: seq<Item>)
    ensures result == Retained(shares, blank, items, maxTokens)
  {
    hide *;
    var remaining := maxTokens;
    var retained: seq<Item> := [];
    var i := |items|;
    RetainEnds(shares, blank, items, i, remaining, retained);
    while i > 0 && remaining > 0
      invariant 0 <= i <= |items|
      invariant Retained(shares, blank, items, maxTokens) == StillRetained(shares, blank, items, i, remaining, retained)
    {
      i := i - 1;
      var item := items[i];
      RetainStep(shares, blank, items, i, remaining, retained);
      if !IsWanted(blank, item) { continue; }
      var tokens := ApproximateTokens(item);
      if tokens <= remaining {
        retained := retained + [item];
        remaining := remaining - tokens;
        continue;
      }
      var truncated := TruncateMessage(shares, item, remaining);
      if truncated.Some? { retained := retained + [truncated.value]; }
      remaining := 0;
    }
    RetainEnds(shares, blank, items, i, remaining, retained);
    return Reversed(retained);
  }
}
