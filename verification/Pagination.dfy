/** How a paragraph in relative mode is spread over pages (creator/styled_paragraph.go). A line is the list of
    the font sizes of its chunks. */
module Pagination {
  import opened Bytes

  type Line = seq<real>

  function MaxSize(line: Line): real {
    if line == [] then 0.0
    else
      var m := MaxSize(line[..|line| - 1]);
      if line[|line| - 1] > m then line[|line| - 1] else m
  }

  function Height(line: Line, lineHeight: real): real {
    MaxSize(line) * lineHeight
  }

  function Total(lines: seq<Line>, lineHeight: real): real {
    if lines == [] then 0.0 else Total(lines[..|lines| - 1], lineHeight) + Height(lines[|lines| - 1], lineHeight)
  }

  // ---- Pages ----

  /** How many lines are drawn, i of them being drawn already. */
  function Fitting(lines: seq<Line>, lineHeight: real, avail: real, i: nat): (k: nat)
    requires i <= |lines|
    ensures i <= k <= |lines|
    decreases |lines| - i
  {
    if i < |lines| && Total(lines[..i], lineHeight) + Height(lines[i], lineHeight) <= avail
    then Fitting(lines, lineHeight, avail, i + 1) else i
  }

  /** The lines of each page, or pages without end. */
  datatype Pages = Pages(pages: seq<seq<Line>>) | Endless

  /** The pages behind the first. A page that takes no line leaves the same lines to the next one. */
  function MorePages(lines: seq<Line>, lineHeight: real, page: real): Pages
    decreases |lines|
  {
    if lines == [] then Pages([])
    else
      var k := Fitting(lines, lineHeight, page, 0);
      if k == 0 then Endless
      else match MorePages(lines[k..], lineHeight, page)
        case Endless => Endless
        case Pages(ps) => Pages([lines[..k]] + ps)
  }

  /** The page loop: `first` is the height left on the current page, `page` that of a new one. */
  function Paginate(lines: seq<Line>, lineHeight: real, first: real, page: real): Pages {
    var k := Fitting(lines, lineHeight, first, 0);
    match MorePages(lines[k..], lineHeight, page)
    case Endless => Endless
    case Pages(ps) => Pages([lines[..k]] + ps)
  }

  method LineHeight(line: Line, lineHeight: real) returns (height: real)
    ensures height == Height(line, lineHeight)
  {
    height := 0.0;
    for j := 0 to |line|
      invariant height == MaxSize(line[..j])
    {
      assert line[..j + 1][..j] == line[..j];
      if line[j] > height { height := line[j]; }
    }
    WholeSlice(line);
    height := height * lineHeight;
  }

  lemma {:induction false} TotalStep(lines: seq<Line>, lineHeight: real, i: nat)
    requires i < |lines|
    ensures Total(lines[..i + 1], lineHeight) == Total(lines[..i], lineHeight) + Height(lines[i], lineHeight)
  {
    assert lines[..i + 1][..i] == lines[..i];
  }

  method DrawOnBlock(lines: seq<Line>, lineHeight: real, avail: real) returns (drawn: seq<Line>, remaining: seq<Line>)
    ensures var k := Fitting(lines, lineHeight, avail, 0); drawn == lines[..k] && remaining == lines[k..]
  {
    var totalHeight := 0.0;
    var i := 0;
    while i < |lines|
      invariant i <= |lines| && totalHeight == Total(lines[..i], lineHeight)
      invariant Fitting(lines, lineHeight, avail, i) == Fitting(lines, lineHeight, avail, 0)
    {
      var height := LineHeight(lines[i], lineHeight);
      if totalHeight + height > avail { break; }
      TotalStep(lines, lineHeight, i);
      totalHeight := totalHeight + height;
      i := i + 1;
    }
    return lines[..i], lines[i..];
  }

  method GeneratePageBlocks(lines: seq<Line>, lineHeight: real, first: real, page: real) returns (r: Pages)
    ensures r == Paginate(lines, lineHeight, first, page)
  {
    var drawn, remaining := DrawOnBlock(lines, lineHeight, first);
    var blocks := [drawn];
    ghost var all := Paginate(lines, lineHeight, first, page);
    while remaining != []
      invariant all == (match MorePages(remaining, lineHeight, page)
                        case Endless => Endless
                        case Pages(ps) => Pages(blocks + ps))
      decreases |remaining|
    {
      ghost var before := remaining;
      drawn, remaining := DrawOnBlock(remaining, lineHeight, page);
      if drawn == [] { return Endless; } // every further page is the same
      ghost var more := MorePages(remaining, lineHeight, page);
      if more.Pages? { Assoc(blocks, [drawn], more.pages); }
      blocks := blocks + [drawn];
    }
    AppendNothing(blocks);
    return Pages(blocks);
  }

  // ---- Every line once, no page too full ----

  function Concat(pages: seq<seq<Line>>): seq<Line> {
    if pages == [] then [] else pages[0] + Concat(pages[1..])
  }

  lemma {:induction false} FittingFits(lines: seq<Line>, lineHeight: real, avail: real, i: nat)
    requires i <= |lines| && (i > 0 ==> Total(lines[..i], lineHeight) <= avail)
    ensures var k := Fitting(lines, lineHeight, avail, i);
            && (k > 0 ==> Total(lines[..k], lineHeight) <= avail)
            && (k < |lines| ==> Total(lines[..k], lineHeight) + Height(lines[k], lineHeight) > avail)
    decreases |lines| - i
  {
    if i < |lines| && Total(lines[..i], lineHeight) + Height(lines[i], lineHeight) <= avail {
      assert lines[..i + 1][..i] == lines[..i];
      FittingFits(lines, lineHeight, avail, i + 1);
    }
  }

  predicate AllFit(pages: seq<seq<Line>>, lineHeight: real, page: real) {
    forall i :: 0 <= i < |pages| ==> pages[i] != [] && Total(pages[i], lineHeight) <= page
  }

  lemma {:induction false} MorePagesKeep(lines: seq<Line>, lineHeight: real, page: real)
    requires MorePages(lines, lineHeight, page).Pages?
    ensures var ps := MorePages(lines, lineHeight, page).pages; Concat(ps) == lines && AllFit(ps, lineHeight, page)
    decreases |lines|
  {
    if lines == [] {
    } else {
      var k := Fitting(lines, lineHeight, page, 0);
      FittingFits(lines, lineHeight, page, 0);
      MorePagesKeep(lines[k..], lineHeight, page);
      var ps := MorePages(lines[k..], lineHeight, page).pages;
      assert ([lines[..k]] + ps)[1..] == ps;
      TakeDrop(lines, k);
    }
  }

  /** The pages have all lines in order; the first takes what fits in the height left, all others have lines
      and are not too full. */
  lemma {:induction false} PaginateKeeps(lines: seq<Line>, lineHeight: real, first: real, page: real)
    requires Paginate(lines, lineHeight, first, page).Pages?
    ensures var ps := Paginate(lines, lineHeight, first, page).pages;
            && ps != [] && Concat(ps) == lines && AllFit(ps[1..], lineHeight, page)
            && (ps[0] != [] ==> Total(ps[0], lineHeight) <= first)
  {
    var k := Fitting(lines, lineHeight, first, 0);
    FittingFits(lines, lineHeight, first, 0);
    MorePagesKeep(lines[k..], lineHeight, page);
    var ps := MorePages(lines[k..], lineHeight, page).pages;
    assert ([lines[..k]] + ps)[1..] == ps;
    TakeDrop(lines, k);
  }

  // ---- When it ends ----

  lemma {:induction false} HeightNotNegative(line: Line, lineHeight: real)
    requires lineHeight >= 0.0
    ensures Height(line, lineHeight) >= 0.0
  {
    MaxSizeNotNegative(line);
  }

  lemma {:induction false} MaxSizeNotNegative(line: Line)
    ensures MaxSize(line) >= 0.0
  {
    if line == [] {
    } else {
      MaxSizeNotNegative(line[..|line| - 1]);
    }
  }

  predicate TooHigh(lines: seq<Line>, lineHeight: real, page: real) {
    exists i :: 0 <= i < |lines| && Height(lines[i], lineHeight) > page
  }

  lemma {:induction false} PartsAreLess(lines: seq<Line>, lineHeight: real, i: nat)
    requires lineHeight >= 0.0 && i < |lines|
    ensures 0.0 <= Height(lines[i], lineHeight) <= Total(lines, lineHeight)
    decreases |lines|
  {
    var n := |lines| - 1;
    HeightNotNegative(lines[n], lineHeight);
    if n == 0 {
    } else {
      PartsAreLess(lines[..n], lineHeight, if i < n then i else 0);
    }
  }

  lemma {:induction false} MorePagesEndlessIff(lines: seq<Line>, lineHeight: real, page: real)
    requires lineHeight >= 0.0
    ensures MorePages(lines, lineHeight, page).Endless? <==> TooHigh(lines, lineHeight, page)
    decreases |lines|
  {
    if lines == [] {
    } else {
      var k := Fitting(lines, lineHeight, page, 0);
      FittingFits(lines, lineHeight, page, 0);
      if k == 0 {
        assert lines[..0] == [];
      } else {
        MorePagesEndlessIff(lines[k..], lineHeight, page);
        forall i | 0 <= i < k ensures Height(lines[i], lineHeight) <= page { PartsAreLess(lines[..k], lineHeight, i); }
        TailTooHigh(lines, lineHeight, page, k);
      }
    }
  }

  lemma {:induction false} TailTooHigh(lines: seq<Line>, lineHeight: real, page: real, k: nat)
    requires k <= |lines| && forall i :: 0 <= i < k ==> Height(lines[i], lineHeight) <= page
    ensures TooHigh(lines, lineHeight, page) <==> TooHigh(lines[k..], lineHeight, page)
  {
    if TooHigh(lines, lineHeight, page) {
      var i :| 0 <= i < |lines| && Height(lines[i], lineHeight) > page;
      assert lines[k..][i - k] == lines[i];
    }
    if TooHigh(lines[k..], lineHeight, page) {
      var i :| 0 <= i < |lines[k..]| && Height(lines[k..][i], lineHeight) > page;
      assert lines[k..][i] == lines[k + i];
    }
  }

  /** The page loop does not end exactly if a line that is not drawn on the first page is higher than a
      page. */
  lemma {:induction false} EndlessIff(lines: seq<Line>, lineHeight: real, first: real, page: real)
    requires lineHeight >= 0.0
    ensures Paginate(lines, lineHeight, first, page).Endless?
            <==> TooHigh(lines[Fitting(lines, lineHeight, first, 0)..], lineHeight, page)
  {
    MorePagesEndlessIff(lines[Fitting(lines, lineHeight, first, 0)..], lineHeight, page);
  }

  /** A line higher than every page: one of size 20 on pages of height 10. */
  lemma {:induction false} LineTooHigh()
    ensures Paginate([[20.0]], 1.0, 10.0, 10.0) == Endless
  {
    var lines: seq<Line> := [[20.0]];
    assert lines[0][..0] == [] && MaxSize([]) == 0.0;
    assert Height(lines[0], 1.0) == 20.0;
    assert lines[..0] == [] && Fitting(lines, 1.0, 10.0, 0) == 0 && lines[0..] == lines;
    assert TooHigh(lines, 1.0, 10.0);
    EndlessIff(lines, 1.0, 10.0, 10.0);
  }

  // ---- Heights ----

  /** The height of a line is that of its greatest chunk; sizes are not negative. */
  lemma {:induction false} MaxSizeIs(line: Line)
    ensures forall i :: 0 <= i < |line| ==> line[i] <= MaxSize(line)
    ensures MaxSize(line) == 0.0 || exists i :: 0 <= i < |line| && line[i] == MaxSize(line)
    decreases |line|
  {
    if line == [] {
    } else {
      var n := |line| - 1;
      MaxSizeIs(line[..n]);
      forall i | 0 <= i < |line| ensures line[i] <= MaxSize(line) { if i < n { assert line[..n][i] == line[i]; } }
      if line[n] > MaxSize(line[..n]) {
        assert line[n] == MaxSize(line);
      } else if MaxSize(line) != 0.0 {
        var i :| 0 <= i < |line[..n]| && line[..n][i] == MaxSize(line[..n]);
        assert line[i] == MaxSize(line);
      }
    }
  }

  /** What the lines drawn take: the sum of their greatest chunks, each times the line height. */
  lemma {:induction false} TotalAppend(lines: seq<Line>, line: Line, lineHeight: real)
    ensures Total(lines + [line], lineHeight) == Total(lines, lineHeight) + MaxSize(line) * lineHeight
  {
    assert (lines + [line])[..|lines|] == lines;
  }

  /** As many lines as fit are drawn: one more would not. */
  lemma {:induction false} FittingIsMost(lines: seq<Line>, lineHeight: real, avail: real)
    ensures var k := Fitting(lines, lineHeight, avail, 0);
            && (forall j :: 0 < j <= k ==> Total(lines[..j], lineHeight) <= avail)
            && (k < |lines| ==> Total(lines[..k + 1], lineHeight) > avail)
  {
    FittingIsMostFrom(lines, lineHeight, avail, 0);
  }

  lemma {:induction false} FittingIsMostFrom(lines: seq<Line>, lineHeight: real, avail: real, i: nat)
    requires i <= |lines|
    ensures var k := Fitting(lines, lineHeight, avail, i);
            && (forall j :: i < j <= k ==> Total(lines[..j], lineHeight) <= avail)
            && (k < |lines| ==> Total(lines[..k + 1], lineHeight) > avail)
    decreases |lines| - i
  {
    if i < |lines| {
      assert lines[..i + 1] == lines[..i] + [lines[i]];
      TotalAppend(lines[..i], lines[i], lineHeight);
      if Total(lines[..i], lineHeight) + Height(lines[i], lineHeight) <= avail {
        FittingIsMostFrom(lines, lineHeight, avail, i + 1);
      }
    }
  }
}
