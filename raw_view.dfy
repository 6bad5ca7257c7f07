/** The raw-row pager of bikeshare.py (`view_raw_data`): a cursor that starts
    at row 0 and moves forward five rows for every page shown. Before each
    page the user is asked; the pager stops on any answer other than "yes"
    (in any letter case) or when the next slice of the table is empty. The
    console is a finite sequence of answers. */
module RawView {
  import opened Common
  import opened Loader

  const PAGE_SIZE: nat := 5

  function Min(a: int, b: int): int { if a < b then a else b }

  /** `df.iloc[i:i+5]`: the rows at positions i..i+4 that exist. */
  function Page(table: seq<Trip>, i: nat): (r: seq<Trip>)
    ensures |r| <= PAGE_SIZE
    ensures r == [] <==> i >= |table|
    ensures i < |table| ==> r == table[i..Min(i + PAGE_SIZE, |table|)]
  {
    table[Min(i, |table|)..Min(i + PAGE_SIZE, |table|)]
  }

  /** The shown pages one after the other. */
  function Flatten(pages: seq<seq<Trip>>): seq<Trip>
  {
    if pages == [] then [] else Flatten(pages[..|pages| - 1]) + pages[|pages| - 1]
  }

  /** Why the pager stopped: a non-"yes" answer, an empty slice after a
      "yes", or no answer left to read. */
  datatype Stop = Declined | EndOfTable | InputExhausted

  /** `view_raw_data`. Page p is the slice starting at row 5p; every page
      shown was asked for with "yes" and is non-empty; the pages together are
      the table's first rows in order; a table of N rows yields at most
      ceil(N/5) pages; and answering "yes" to everything shows the whole table
      in exactly ceil(N/5) pages and then stops at the end of the table. */
  method ViewRawData(table: seq<Trip>, answers: seq<string>) returns (pages: seq<seq<Trip>>, stop: Stop)
    ensures forall p :: 0 <= p < |pages| ==> pages[p] == Page(table, PAGE_SIZE * p) && pages[p] != []
    ensures |pages| <= (|table| + PAGE_SIZE - 1) / PAGE_SIZE
    ensures |pages| <= |answers|
    ensures forall j :: 0 <= j < |pages| ==> Lower(answers[j]) == "yes"
    ensures Flatten(pages) == table[..Min(PAGE_SIZE * |pages|, |table|)]
    ensures stop == Declined ==> |pages| < |answers| && Lower(answers[|pages|]) != "yes"
    ensures stop == EndOfTable ==>
      |pages| < |answers| && Lower(answers[|pages|]) == "yes" && PAGE_SIZE * |pages| >= |table|
    ensures stop == InputExhausted ==> |pages| == |answers|
    ensures (forall j :: 0 <= j < |answers| ==> Lower(answers[j]) == "yes")
            && |answers| > (|table| + PAGE_SIZE - 1) / PAGE_SIZE
            ==> stop == EndOfTable && |pages| == (|table| + PAGE_SIZE - 1) / PAGE_SIZE
                && Flatten(pages) == table
  {
    var i: nat := 0;
    var k := 0;
    pages := [];
    while k < |answers|
      invariant k == |pages| <= |answers|
      invariant i == PAGE_SIZE * k
      invariant k > 0 ==> i < |table| + PAGE_SIZE
      invariant forall p :: 0 <= p < |pages| ==> pages[p] == Page(table, PAGE_SIZE * p) && pages[p] != []
      invariant forall j :: 0 <= j < k ==> Lower(answers[j]) == "yes"
      invariant Flatten(pages) == table[..Min(i, |table|)]
    {
      var rawData := answers[k];
      if Lower(rawData) != "yes" {
        stop := Declined;
        return;
      }
      var page := Page(table, i);
      if page == [] {
        stop := EndOfTable;
        return;
      }
      assert (pages + [page])[..|pages|] == pages;
      assert table[..Min(i, |table|)] + page == table[..Min(i + PAGE_SIZE, |table|)];
      pages := pages + [page];
      i := i + PAGE_SIZE;
      k := k + 1;
    }
    stop := InputExhausted;
  }
}
