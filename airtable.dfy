/** `download_airtable` (inkbot.py:13-38): the rows of the ink table, fetched page
    by page until a response carries no offset.  The HTTP client is replaced by
    the sequence of responses it would return, in request order. */
module Airtable {
  import opened Common
  import Rules

  /** One response of `at.get(table_name, offset=...)`: its records and its `offset`. */
  datatype Page = Page(records: seq<Rules.InkFields>, offset: Option<string>)

  /** `while offset:` continues on a present, non-empty offset only. */
  predicate HasMore(p: Page) {
    p.offset.Some? && p.offset.value != ""
  }

  /** The server eventually answers without an offset. */
  predicate Terminates(pages: seq<Page>) {
    exists k :: 0 <= k < |pages| && !HasMore(pages[k])
  }

  /** The index of the response that ends the download: the first without an offset. */
  function LastPage(pages: seq<Page>): (n: nat)
    requires Terminates(pages)
    ensures n < |pages| && !HasMore(pages[n])
    ensures forall k :: 0 <= k < n ==> HasMore(pages[k])
  {
    if !HasMore(pages[0]) then 0
    else
      assert Terminates(pages[1..]) by {
        var k :| 0 <= k < |pages| && !HasMore(pages[k]);
        assert k > 0 && pages[1..][k - 1] == pages[k];
      }
      1 + LastPage(pages[1..])
  }

  /** The records of `pages`, in fetch order. */
  function Rows(pages: seq<Page>): seq<Rules.InkFields> {
    if pages == [] then [] else Rows(pages[..|pages| - 1]) + pages[|pages| - 1].records
  }

  /** `download_airtable`: the first request has no offset, each later one passes
      the offset of the response before it, and the result is every fetched
      page's records concatenated, up to and including the first page without an
      offset. */
  method DownloadAirtable(pages: seq<Page>) returns (rowList: seq<Rules.InkFields>, requests: seq<Option<string>>)
    requires Terminates(pages)
    ensures rowList == Rows(pages[..LastPage(pages) + 1])
    ensures |requests| == LastPage(pages) + 1 && requests[0] == None
    ensures forall k :: 1 <= k < |requests| ==> requests[k] == pages[k - 1].offset
  {
    var n := LastPage(pages);
    var resp := pages[0];
    requests := [None];
    rowList := resp.records;
    var offset := resp.offset;
    var k := 1;
    assert pages[..1][..0] == [];
    while offset.Some? && offset.value != ""
      invariant 1 <= k <= n + 1
      invariant offset == pages[k - 1].offset
      invariant rowList == Rows(pages[..k])
      invariant |requests| == k && requests[0] == None
      invariant forall m :: 1 <= m < k ==> requests[m] == pages[m - 1].offset
      decreases n + 1 - k
    {
      requests := requests + [offset];
      resp := pages[k];
      assert pages[..k + 1][..k] == pages[..k];
      rowList := rowList + resp.records;
      offset := resp.offset;
      k := k + 1;
    }
  }

  lemma {:induction false} RowsAppend(a: seq<Page>, b: seq<Page>)
    ensures Rows(a + b) == Rows(a) + Rows(b)
    decreases |b|
  {
    if b == [] {
      assert a + b == a;
    } else {
      var b' := b[..|b| - 1];
      assert (a + b)[..|a + b| - 1] == a + b';
      RowsAppend(a, b');
    }
  }

  /** Every downloaded row comes from a fetched page, and every record of a
      fetched page is downloaded, each page's records contiguous and in order. */
  lemma {:induction false} RowsExact(pages: seq<Page>, k: nat)
    requires k < |pages|
    ensures Rows(pages) == Rows(pages[..k]) + pages[k].records + Rows(pages[k + 1..])
  {
    assert pages == pages[..k] + [pages[k]] + pages[k + 1..];
    RowsAppend(pages[..k] + [pages[k]], pages[k + 1..]);
    RowsAppend(pages[..k], [pages[k]]);
    assert ([] + [pages[k]])[..0] == [];
  }
}
