/** Reading an oversized tool result page by page. Every response must fit the limit, and the
    fragments must add up to the stored text. */
module Paging {
  import opened Common
  import opened Utf8
  import opened Text
  import opened Json

  const USIZE_LIMIT: nat := 0x1_0000_0000_0000_0000

  datatype Page = Page(offset: nat, fragment: string, nextCursor: Option<string>, complete: bool, totalBytes: nat)

  // ----- cursors -----

  function EncodeCursor(id: string, offset: nat): string {
    id + "." + Decimal(offset)
  }

  /** `str::parse::<usize>`: an optional plus sign, digits, and no overflow. */
  function ParseUsize(s: string): Option<nat> {
    var digits := if s != "" && s[0] == '+' then s[1..] else s;
    if digits != "" && AllDigits(digits) && Number(digits) < USIZE_LIMIT then Some(Number(digits)) else None
  }

  function DecodeCursor(id: string, cursor: string, json: string): Option<nat> {
    if !(id <= cursor) then None
    else
      var rest := cursor[|id|..];
      if rest == "" || rest[0] != '.' then None
      else
        var offset := ParseUsize(rest[1..]);
        if offset.Some? && EncodeCursor(id, offset.value) == cursor
           && offset.value < ByteLen(json) && IsBoundary(json, offset.value) then offset
        else None
  }

  /** A cursor is read back exactly if it is the one issued for that boundary. */
  lemma CursorsAreCanonical(id: string, cursor: string, json: string, offset: nat)
    ensures DecodeCursor(id, cursor, json) == Some(offset) <==>
            && cursor == EncodeCursor(id, offset) && offset < USIZE_LIMIT
            && offset < ByteLen(json) && IsBoundary(json, offset)
  {
    if cursor == EncodeCursor(id, offset) {
      assert cursor[|id|..] == "." + Decimal(offset);
      assert cursor[|id|..][1..] == Decimal(offset);
      NumberOfDecimal(offset);
      assert IsDigit(Decimal(offset)[0]);
    }
  }

  // ----- responses -----

  function BoolText(b: bool): string { if b then "true" else "false" }

  function CursorText(cursor: Option<string>): string {
    if cursor.None? then "null" else "\"" + Escape(cursor.value) + "\""
  }

  const HEAD := "{\"complete\":"
  const FRAGMENT := ",\"fragment\":\""
  const CURSOR := "\",\"next_cursor\":"
  const OFFSET := ",\"offset\":"
  const TOTAL := ",\"total_bytes\":"

  /** The page's structured JSON, its members in key order. */
  function PageJson(p: Page): string {
    HEAD + BoolText(p.complete) + FRAGMENT + Escape(p.fragment) + CURSOR + CursorText(p.nextCursor)
      + OFFSET + Decimal(p.offset) + TOTAL + Decimal(p.totalBytes) + "}"
  }

  /** The complete response: a fixed envelope around the JSON and the text repeating it. */
  function ResponseLen(envelope: nat, json: string): nat {
    envelope + Cost(json)
  }

  function FixedCost(): nat {
    Cost(HEAD) + Cost(FRAGMENT) + Cost(CURSOR) + Cost(OFFSET) + Cost(TOTAL) + Cost("}")
  }

  lemma PageCost(p: Page)
    ensures Cost(PageJson(p)) == FixedCost() + Cost(BoolText(p.complete)) + FragmentCost(p.fragment)
                                 + Cost(CursorText(p.nextCursor)) + 2 * |Decimal(p.offset)| + 2 * |Decimal(p.totalBytes)|
  {
    hide Cost; hide Escape;
    var a := HEAD + BoolText(p.complete);
    var b := a + FRAGMENT;
    var c := b + Escape(p.fragment);
    var d := c + CURSOR;
    var e := d + CursorText(p.nextCursor);
    var f := e + OFFSET;
    var g := f + Decimal(p.offset);
    var h := g + TOTAL;
    var i := h + Decimal(p.totalBytes);
    CostConcat(HEAD, BoolText(p.complete));
    CostConcat(a, FRAGMENT);
    CostConcat(b, Escape(p.fragment));
    CostConcat(c, CURSOR);
    CostConcat(d, CursorText(p.nextCursor));
    CostConcat(e, OFFSET);
    CostConcat(f, Decimal(p.offset));
    CostConcat(g, TOTAL);
    CostConcat(h, Decimal(p.totalBytes));
    CostConcat(i, "}");
    FragmentCostIsExact(p.fragment);
    PlainCost(Decimal(p.offset));
    PlainCost(Decimal(p.totalBytes));
  }

  lemma CursorCost(id: string, offset: nat)
    requires Plain(id)
    ensures Cost(CursorText(Some(EncodeCursor(id, offset)))) == 8 + 2 * |id| + 2 * |Decimal(offset)|
  {
    var cursor := EncodeCursor(id, offset);
    PlainCost(cursor);
    QuoteCost();
    CostConcat("\"", cursor);
    CostConcat("\"" + cursor, "\"");
  }

  lemma ConstantCosts()
    ensures Cost(CursorText(None)) == 8 && Cost(BoolText(true)) == 8 && Cost(BoolText(false)) == 10
  {
    hide Cost; hide Escape; hide ByteLen;
    PlainCost("null");
    PlainCost("true");
    PlainCost("false");
  }

  // ----- pages -----

  function PageAt(json: string, offset: nat, end: nat, id: string): Page
    requires IsBoundary(json, offset) && IsBoundary(json, end) && offset <= end <= ByteLen(json)
  {
    var complete := end == ByteLen(json);
    Page(offset, Slice(json, offset, end), if complete then None else Some(EncodeCursor(id, end)), complete, ByteLen(json))
  }

  /** Carries the longest cursor the text can have, and no fragment. */
  function Skeleton(json: string, offset: nat, id: string): Page {
    Page(offset, "", Some(EncodeCursor(id, ByteLen(json))), false, ByteLen(json))
  }

  /** The skeleton bounds everything of a page but its fragment, whose cost is exact. */
  lemma PageFitsItsBudget(envelope: nat, json: string, offset: nat, end: nat, id: string)
    requires Plain(id) && IsBoundary(json, offset) && IsBoundary(json, end) && offset <= end <= ByteLen(json)
    ensures ResponseLen(envelope, PageJson(PageAt(json, offset, end, id)))
         <= ResponseLen(envelope, PageJson(Skeleton(json, offset, id))) + FragmentCost(Slice(json, offset, end))
  {
    hide Cost; hide PageJson; hide FragmentCost; hide CursorText; hide Slice;
    PageCost(PageAt(json, offset, end, id));
    PageCost(Skeleton(json, offset, id));
    ConstantCosts();
    CursorCost(id, ByteLen(json));
    CursorCost(id, end);
    SmallerIsNotLonger(end, ByteLen(json));
    EmptyFragment();
  }

  lemma EmptyFragment()
    ensures FragmentCost("") == 0
  {
  }

  /** The longest run of characters from `from` whose cost stays within `budget`. */
  ghost predicate MaximalRun(json: string, from: nat, to: nat, budget: nat) {
    && from <= to <= |json|
    && FragmentCost(json[from..to]) <= budget
    && (to < |json| ==> FragmentCost(json[from..to]) + ResponseCost(json[to]) > budget)
  }

  /** Why no page could be produced: not even one character fits. */
  ghost predicate LimitTooSmall(envelope: nat, json: string, offset: nat, id: string, limit: nat)
    requires IsBoundary(json, offset) && offset < ByteLen(json)
  {
    NotAtEnd(json, offset);
    ResponseLen(envelope, PageJson(Skeleton(json, offset, id))) + ResponseCost(json[IndexOf(json, offset)]) > limit
  }

  lemma NotAtEnd(json: string, offset: nat)
    requires IsBoundary(json, offset) && offset < ByteLen(json)
    ensures IndexOf(json, offset) < |json|
  {
    assert json[..|json|] == json;
  }

  method PreviousBoundary(json: string, end: nat) returns (previous: nat)
    requires 0 < end <= ByteLen(json)
    ensures previous < end && IsBoundary(json, previous)
    ensures forall i :: previous < i < end ==> !IsBoundary(json, i)
  {
    previous := end - 1;
    while !IsBoundary(json, previous)
      invariant previous < end
      invariant forall i :: previous < i < end ==> !IsBoundary(json, i)
      decreases previous
    {
      previous := previous - 1;
    }
  }

  lemma OneMore(json: string, from: nat, to: nat)
    requires from <= to < |json|
    ensures FragmentCost(json[from..to + 1]) == FragmentCost(json[from..to]) + ResponseCost(json[to])
  {
    assert json[from..to + 1] == json[from..to] + [json[to]];
    FragmentCostConcat(json[from..to], [json[to]]);
    assert FragmentCost([json[to]]) == ResponseCost(json[to]) + FragmentCost([json[to]][1..]);
  }

  method CollectRun(json: string, from: nat, budget: nat) returns (to: nat)
    requires from <= |json|
    ensures MaximalRun(json, from, to, budget)
  {
    hide ResponseCost; hide FragmentCost;
    to := from;
    var cost := 0;
    assert json[from..from] == "";
    EmptyFragment();
    while to < |json|
      invariant from <= to <= |json| && cost == FragmentCost(json[from..to]) <= budget
    {
      var next := cost + ResponseCost(json[to]);
      if next > budget {
        return;
      }
      OneMore(json, from, to);
      cost := next;
      to := to + 1;
    }
  }

  /** A run from a boundary ends on a boundary. */
  lemma RunEnds(json: string, offset: nat, to: nat)
    requires IsBoundary(json, offset) && offset <= ByteLen(json) && IndexOf(json, offset) <= to <= |json|
    ensures var end := ByteLen(json[..to]);
            && offset <= end <= ByteLen(json) && IsBoundary(json, end) && IndexOf(json, end) == to
            && Slice(json, offset, end) == json[IndexOf(json, offset)..to]
  {
    var from := IndexOf(json, offset);
    IndexOfPrefix(json, to);
    if from < to { PrefixLengthsGrow(json, from, to); }
  }

  /** The page is the maximal run for the budget; the first candidate always fits, so the loop
      that would shrink it returns at once. */
  method FitPage(envelope: nat, json: string, offset: nat, id: string, limit: nat) returns (result: Option<Page>)
    requires IsBoundary(json, offset) && offset < ByteLen(json) && Plain(id)
    ensures result.None? <==> LimitTooSmall(envelope, json, offset, id, limit)
    ensures result.Some? ==>
              var skeleton := ResponseLen(envelope, PageJson(Skeleton(json, offset, id)));
              && skeleton <= limit
              && exists to: nat :: IndexOf(json, offset) < to && MaximalRun(json, IndexOf(json, offset), to, limit - skeleton)
                   && IsPageTo(json, offset, to, id, result.value)
    ensures result.Some? ==> ResponseLen(envelope, PageJson(result.value)) <= limit
  {
    hide Cost; hide PageJson; hide Encode; hide Skeleton; hide IsBoundary;
    NotAtEnd(json, offset);
    var skeleton := ResponseLen(envelope, PageJson(Skeleton(json, offset, id)));
    if limit < skeleton {
      return None;
    }
    var budget := limit - skeleton;
    var from := IndexOf(json, offset);
    var to := CollectRun(json, from, budget);
    ghost var first := to;
    var end := ByteLen(json[..to]);
    RunEnds(json, offset, to);
    while true
      invariant offset <= end <= ByteLen(json) && IsBoundary(json, end)
      invariant end == ByteLen(json[..first])
             || ResponseLen(envelope, PageJson(PageAt(json, offset, ByteLen(json[..first]), id))) > limit
      decreases end
    {
      if end == offset {
        PageFitsItsBudget(envelope, json, offset, ByteLen(json[..first]), id);
        if from < first { PrefixLengthsGrow(json, from, first); }
        return None;
      }
      var page := PageAt(json, offset, end, id);
      if ResponseLen(envelope, PageJson(page)) <= limit {
        PageFitsItsBudget(envelope, json, offset, ByteLen(json[..first]), id);
        assert IsPageTo(json, offset, first, id, page);
        return Some(page);
      }
      end := PreviousBoundary(json, end);
    }
  }

  ghost predicate IsPageTo(json: string, offset: nat, to: nat, id: string, page: Page)
    requires IsBoundary(json, offset)
  {
    && to <= |json|
    && var end := ByteLen(json[..to]);
    offset <= end <= ByteLen(json) && IsBoundary(json, end) && page == PageAt(json, offset, end, id)
  }

  // ----- the startup check -----

  function Repeat(c: char, n: nat): (text: string)
    ensures |text| == n && (PlainChar(c) ==> Plain(text))
  {
    if n == 0 then "" else [c] + Repeat(c, n - 1)
  }

  /** 'r' and two 64-bit numbers in hexadecimal. */
  const LONGEST_ID: string := "r" + Repeat('f', 32)

  const INSTRUCTION := "{\"deferred_result\":{\"expires_in_seconds\":300,\"instruction\":\""
  const RESULT_ID := "\",\"read_with\":\"read_tool_result_page\",\"result_id\":\""
  const TOOL := "\",\"tool\":\""
  const TOTAL_BYTES := "\",\"total_bytes\":"

  /** The structured JSON of a deferred result marker, its members in key order. */
  function Marker(instruction: string, tool: string, id: string, totalBytes: nat): string {
    INSTRUCTION + Escape(instruction) + RESULT_ID + Escape(id) + TOOL + Escape(tool) + TOTAL_BYTES + Decimal(totalBytes) + "}}"
  }

  function WidestPage(maxResult: nat): Page {
    Page(maxResult, "\U{10FFFF}", Some(EncodeCursor(LONGEST_ID, maxResult)), false, maxResult)
  }

  /** The limits the server starts with. */
  predicate AcceptsLimit(envelope: nat, instruction: string, limit: nat, maxResult: nat, longestTool: nat) {
    && ResponseLen(envelope, Marker(instruction, Repeat('t', longestTool), LONGEST_ID, maxResult)) <= limit
    && ResponseLen(envelope, PageJson(WidestPage(maxResult))) <= limit
  }

  predicate NoRawControls(json: string) { forall i :: 0 <= i < |json| ==> ' ' <= json[i] }

  lemma OnlyControlsAreWider(c: char)
    requires ' ' <= c
    ensures ResponseCost(c) <= 8
  {
  }

  lemma WidestCharacter()
    ensures FragmentCost("\U{10FFFF}") == 8
  {
    assert "\U{10FFFF}"[1..] == "";
  }

  /** Under an accepted limit every boundary of every storable compact text yields a page. */
  lemma AcceptedLimitsNeverTooSmall(envelope: nat, instruction: string, limit: nat, maxResult: nat, longestTool: nat,
                                    json: string, offset: nat, id: string)
    requires AcceptsLimit(envelope, instruction, limit, maxResult, longestTool)
    requires ByteLen(json) <= maxResult && NoRawControls(json) && Plain(id) && |id| <= |LONGEST_ID|
    requires IsBoundary(json, offset) && offset < ByteLen(json)
    ensures !LimitTooSmall(envelope, json, offset, id, limit)
  {
    hide Cost; hide PageJson; hide CursorText; hide IsBoundary; hide ResponseCost; hide FragmentCost; hide Marker;
    NotAtEnd(json, offset);
    OnlyControlsAreWider(json[IndexOf(json, offset)]);
    PageCost(Skeleton(json, offset, id));
    PageCost(WidestPage(maxResult));
    EmptyFragment();
    WidestCharacter();
    CursorCost(id, ByteLen(json));
    CursorCost(LONGEST_ID, maxResult);
    SmallerIsNotLonger(offset, maxResult);
    SmallerIsNotLonger(ByteLen(json), maxResult);
  }

  function MarkerFixedCost(instruction: string): nat {
    Cost(INSTRUCTION) + Cost(Escape(instruction)) + Cost(RESULT_ID) + Cost(TOOL) + Cost(TOTAL_BYTES) + Cost("}}")
  }

  lemma MarkerCost(instruction: string, tool: string, id: string, totalBytes: nat)
    requires Plain(tool) && Plain(id)
    ensures Cost(Marker(instruction, tool, id, totalBytes))
         == MarkerFixedCost(instruction) + 2 * |tool| + 2 * |id| + 2 * |Decimal(totalBytes)|
  {
    hide Cost; hide Escape; hide Plain; hide INSTRUCTION; hide RESULT_ID; hide TOOL; hide TOTAL_BYTES;
    PlainCost(tool);
    PlainCost(id);
    PlainCost(Decimal(totalBytes));
    var b := INSTRUCTION + Escape(instruction);
    var c := b + RESULT_ID;
    var d := c + Escape(id);
    var e := d + TOOL;
    var f := e + Escape(tool);
    var g := f + TOTAL_BYTES;
    var h := g + Decimal(totalBytes);
    CostConcat(INSTRUCTION, Escape(instruction));
    CostConcat(b, RESULT_ID);
    CostConcat(c, Escape(id));
    CostConcat(d, TOOL);
    CostConcat(e, Escape(tool));
    CostConcat(f, TOTAL_BYTES);
    CostConcat(g, Decimal(totalBytes));
    CostConcat(h, "}}");
  }

  /** Under an accepted limit every marker the server can issue fits. */
  lemma AcceptedLimitsFitEveryMarker(envelope: nat, instruction: string, limit: nat, maxResult: nat, longestTool: nat,
                                     tool: string, id: string, totalBytes: nat)
    requires AcceptsLimit(envelope, instruction, limit, maxResult, longestTool)
    requires Plain(tool) && |tool| <= longestTool && Plain(id) && |id| <= |LONGEST_ID| && totalBytes <= maxResult
    ensures ResponseLen(envelope, Marker(instruction, tool, id, totalBytes)) <= limit
  {
    hide Cost; hide Marker; hide PageJson;
    var longest := Repeat('t', longestTool);
    MarkerCost(instruction, tool, id, totalBytes);
    MarkerCost(instruction, longest, LONGEST_ID, maxResult);
    SmallerIsNotLonger(totalBytes, maxResult);
  }

  predicate IsIssuable(tool: string, id: string, totalBytes: nat, maxResult: nat, longestTool: nat) {
    Plain(tool) && |tool| <= longestTool && Plain(id) && |id| <= |LONGEST_ID| && totalBytes <= maxResult
  }

  ghost predicate IsBoundedCursor(cursor: Option<string>, maxResult: nat) {
    cursor.Some? ==> exists id: string, end: nat ::
      Plain(id) && |id| <= |LONGEST_ID| && end <= maxResult && cursor == Some(EncodeCursor(id, end))
  }

  /** A page of one character of compact JSON, wherever in a result of at most that size. */
  ghost predicate IsSmallestPage(p: Page, maxResult: nat) {
    && |p.fragment| == 1 && ' ' <= p.fragment[0] && p.offset <= maxResult && p.totalBytes <= maxResult
    && IsBoundedCursor(p.nextCursor, maxResult)
  }

  ghost predicate EverythingFits(envelope: nat, instruction: string, limit: nat, maxResult: nat, longestTool: nat) {
    && (forall tool, id, totalBytes: nat :: IsIssuable(tool, id, totalBytes, maxResult, longestTool) ==>
          ResponseLen(envelope, Marker(instruction, tool, id, totalBytes)) <= limit)
    && (forall p: Page :: IsSmallestPage(p, maxResult) ==> ResponseLen(envelope, PageJson(p)) <= limit)
  }

  lemma SmallestPageIsNotWider(p: Page, maxResult: nat)
    requires IsSmallestPage(p, maxResult)
    ensures Cost(PageJson(p)) <= Cost(PageJson(WidestPage(maxResult)))
  {
    hide Cost, PageJson, CursorText, ResponseCost, Plain;
    PageCost(p);
    PageCost(WidestPage(maxResult));
    assert p.fragment[1..] == "";
    OnlyControlsAreWider(p.fragment[0]);
    WidestCharacter();
    ConstantCosts();
    LongestIdIsPlain();
    CursorCost(LONGEST_ID, maxResult);
    SmallerIsNotLonger(p.offset, maxResult);
    SmallerIsNotLonger(p.totalBytes, maxResult);
    if p.nextCursor.Some? {
      var id: string, end: nat :| Plain(id) && |id| <= |LONGEST_ID| && end <= maxResult && p.nextCursor == Some(EncodeCursor(id, end));
      CursorCost(id, end);
      SmallerIsNotLonger(end, maxResult);
    }
  }

  lemma LongestIdIsPlain()
    ensures Plain(LONGEST_ID)
  {}

  /** The startup check accepts a limit exactly if every marker that can be issued and every page of one character, with whatever
      offsets, sizes and ids, fits into it. */
  lemma AcceptsLimitIff(envelope: nat, instruction: string, limit: nat, maxResult: nat, longestTool: nat)
    ensures AcceptsLimit(envelope, instruction, limit, maxResult, longestTool)
            <==> EverythingFits(envelope, instruction, limit, maxResult, longestTool)
  {
    hide Cost, Marker, PageJson, Plain, LONGEST_ID;
    LongestIdIsPlain();
    if AcceptsLimit(envelope, instruction, limit, maxResult, longestTool) {
      forall tool, id, totalBytes: nat | IsIssuable(tool, id, totalBytes, maxResult, longestTool)
        ensures ResponseLen(envelope, Marker(instruction, tool, id, totalBytes)) <= limit
      {
        AcceptedLimitsFitEveryMarker(envelope, instruction, limit, maxResult, longestTool, tool, id, totalBytes);
      }
      forall p: Page | IsSmallestPage(p, maxResult) ensures ResponseLen(envelope, PageJson(p)) <= limit {
        SmallestPageIsNotWider(p, maxResult);
      }
    }
    if EverythingFits(envelope, instruction, limit, maxResult, longestTool) {
      var longest := Repeat('t', longestTool);
      assert IsIssuable(longest, LONGEST_ID, maxResult, maxResult, longestTool) by { PlainTool(longestTool); }
      assert IsSmallestPage(WidestPage(maxResult), maxResult);
    }
  }

  lemma PlainTool(length: nat)
    ensures Plain(Repeat('t', length)) && |Repeat('t', length)| == length
  {}

  // ----- reading everything -----

  datatype Read = Got(page: Page) | InvalidCursor | TooSmall

  /** The paging tool, for a stored result that is still available. */
  method ReadPage(envelope: nat, json: string, id: string, cursor: Option<string>, limit: nat) returns (read: Read)
    requires Plain(id) && json != "" && ByteLen(json) < USIZE_LIMIT
    ensures read == InvalidCursor <==> cursor.Some? && DecodeCursor(id, cursor.value, json).None?
    ensures !(cursor.Some? && DecodeCursor(id, cursor.value, json).None?) ==>
              var offset := if cursor.None? then 0 else DecodeCursor(id, cursor.value, json).value;
              && IsBoundary(json, offset) && offset < ByteLen(json)
              && (LimitTooSmall(envelope, json, offset, id, limit) <==> read == TooSmall)
              && (read.Got? ==> exists to: nat :: IndexOf(json, offset) < to && IsPageTo(json, offset, to, id, read.page))
    ensures read.Got? ==> ResponseLen(envelope, PageJson(read.page)) <= limit
  {
    hide PageJson; hide LimitTooSmall; hide Cost; hide MaximalRun;
    FirstByteLeads(json);
    var offset := 0;
    if cursor.Some? {
      var decoded := DecodeCursor(id, cursor.value, json);
      if decoded.None? {
        return InvalidCursor;
      }
      offset := decoded.value;
    }
    var page := FitPage(envelope, json, offset, id, limit);
    read := if page.None? then TooSmall else Got(page.value);
  }

  function Concatenated(pages: seq<Page>): string {
    if pages == [] then "" else Concatenated(pages[..|pages| - 1]) + pages[|pages| - 1].fragment
  }

  /** A response within the limit that carries a part of the text from a boundary on. */
  predicate GoodPage(envelope: nat, limit: nat, json: string, page: Page) {
    ResponseLen(envelope, PageJson(page)) <= limit && IsBoundary(json, page.offset) && page.fragment != ""
  }

  /** From no cursor, following every `next_cursor`: under an accepted limit this ends, every
      response fits, every page starts and ends on a boundary, and the fragments are the text. */
  method ReadAll(envelope: nat, instruction: string, limit: nat, maxResult: nat, longestTool: nat, json: string, id: string)
    returns (pages: seq<Page>)
    requires AcceptsLimit(envelope, instruction, limit, maxResult, longestTool)
    requires json != "" && NoRawControls(json) && ByteLen(json) <= maxResult < USIZE_LIMIT
    requires Plain(id) && |id| <= |LONGEST_ID|
    ensures Concatenated(pages) == json
    ensures forall i :: 0 <= i < |pages| ==> GoodPage(envelope, limit, json, pages[i]) && pages[i].complete == (i == |pages| - 1)
  {
    hide PageJson; hide LimitTooSmall; hide Cost; hide AcceptsLimit; hide GoodPage; hide IsPageTo;
    hide IsBoundary; hide Encode; hide Plain; hide LONGEST_ID;
    pages := [];
    var cursor: Option<string> := None;
    ghost var done: nat := 0;
    while true
      invariant done < |json| && Concatenated(pages) == json[..done]
      invariant cursor == CursorAfter(json, id, done)
      invariant forall i :: 0 <= i < |pages| ==> GoodPage(envelope, limit, json, pages[i]) && !pages[i].complete
      decreases |json| - done
    {
      var page, to := ReadNext(envelope, instruction, limit, maxResult, longestTool, json, id, cursor, done);
      assert (pages + [page])[..|pages|] == pages;
      pages := pages + [page];
      if page.complete {
        assert json[..to] == json;
        return;
      }
      cursor := page.nextCursor;
      done := to;
    }
  }

  function CursorAfter(json: string, id: string, done: nat): Option<string>
    requires done <= |json|
  {
    if done == 0 then None else Some(EncodeCursor(id, ByteLen(json[..done])))
  }

  /** One call of the paging tool with the cursor that the pages so far led to. */
  method ReadNext(envelope: nat, instruction: string, limit: nat, maxResult: nat, longestTool: nat, json: string, id: string,
                  cursor: Option<string>, ghost done: nat) returns (page: Page, ghost to: nat)
    requires AcceptsLimit(envelope, instruction, limit, maxResult, longestTool)
    requires json != "" && NoRawControls(json) && ByteLen(json) <= maxResult < USIZE_LIMIT
    requires Plain(id) && |id| <= |LONGEST_ID|
    requires done < |json| && cursor == CursorAfter(json, id, done)
    ensures done < to <= |json| && json[..done] + page.fragment == json[..to]
    ensures GoodPage(envelope, limit, json, page) && page.complete == (to == |json|)
    ensures !page.complete ==> page.nextCursor == CursorAfter(json, id, to)
  {
    hide PageJson; hide LimitTooSmall; hide Cost; hide AcceptsLimit; hide IsPageTo;
    hide IsBoundary; hide Encode; hide Plain; hide LONGEST_ID;
    ghost var offset := ByteLen(json[..done]);
    CursorLeadsOn(json, id, done, cursor);
    AcceptedLimitsNeverTooSmall(envelope, instruction, limit, maxResult, longestTool, json, offset, id);
    var read := ReadPage(envelope, json, id, cursor, limit);
    page := read.page;
    to :| done < to && IsPageTo(json, offset, to, id, page);
    PageReaches(json, id, done, to, page);
  }

  lemma CursorLeadsOn(json: string, id: string, done: nat, cursor: Option<string>)
    requires done < |json| && ByteLen(json) < USIZE_LIMIT
    requires cursor == CursorAfter(json, id, done)
    ensures var offset := ByteLen(json[..done]);
            && offset < ByteLen(json) && IsBoundary(json, offset) && IndexOf(json, offset) == done
            && (cursor.None? ==> offset == 0)
            && (cursor.Some? ==> DecodeCursor(id, cursor.value, json) == Some(offset))
  {
    var offset := ByteLen(json[..done]);
    IndexOfPrefix(json, done);
    PrefixLengthsGrow(json, done, |json|);
    assert json[..|json|] == json;
    CursorsAreCanonical(id, EncodeCursor(id, offset), json, offset);
  }

  lemma PageReaches(json: string, id: string, done: nat, to: nat, page: Page)
    requires done < |json| && done < to
    requires var offset := ByteLen(json[..done]);
             IsBoundary(json, offset) && offset < ByteLen(json) && IsPageTo(json, offset, to, id, page)
    ensures to <= |json| && page.offset == ByteLen(json[..done])
    ensures page.fragment == json[done..to] && page.fragment != "" && page.complete == (to == |json|)
    ensures !page.complete ==> page.nextCursor == Some(EncodeCursor(id, ByteLen(json[..to])))
    ensures json[..done] + page.fragment == json[..to]
  {
    IndexOfPrefix(json, done);
    IndexOfPrefix(json, to);
    assert json[..|json|] == json;
    if to < |json| { PrefixLengthsGrow(json, to, |json|); }
  }
}
