/**
 * PaginationComponent: the page bar. Its inputs are the number of matching records,
 * the page size and the current page; it offers the pages 1..totalPages and reports
 * every accepted change to its parent.
 */
module Pagination {
  import opened Optional
  import opened JsNumber
  import opened Seqs

  /** The payload of `pageChange`. */
  datatype PaginationEvent = PaginationEvent(currentPage: int, itemsPerPage: int)

  /** The numbers 1, 2, ..., n in order (empty when n < 1). */
  function OneTo(n: int): seq<int> {
    seq(Max(0, n), i => i + 1)
  }

  /** OneTo(n) holds exactly the numbers from 1 to n. */
  lemma OneToMembers(n: int)
    ensures forall p :: p in OneTo(n) <==> 1 <= p <= n
  {
    var s := OneTo(n);
    forall p | 1 <= p <= n
      ensures p in s
    {
      assert s[p - 1] == p;
    }
  }

  class PaginationComponent {
    var totalItems: nat
    var itemsPerPage: int
    var currentPage: int
    var pageSizes: seq<int>

    /** The input defaults, before the parent binds its values. */
    constructor()
      ensures totalItems == 0 && itemsPerPage == 5 && currentPage == 1
      ensures pageSizes == [5, 10, 20, 50]
    {
      totalItems, itemsPerPage, currentPage := 0, 5, 1;
      pageSizes := [5, 10, 20, 50];
    }

    /**
     * `Math.ceil(totalItems / itemsPerPage) || 1`: for a positive page size, the fewest
     * pages (and at least one) that hold every item.
     */
    function TotalPages(): (r: int)
      reads this
      requires itemsPerPage != 0
      ensures itemsPerPage > 0 ==>
        r >= 1 && totalItems <= r * itemsPerPage && (r - 1) * itemsPerPage < Max(totalItems, 1)
    {
      var c := CeilDiv(totalItems, itemsPerPage);
      if c == 0 then 1 else c
    }

    /** `Array.from({length: totalPages}, (_, i) => i + 1)`: exactly the pages 1..totalPages, ascending. */
    function Pages(): (r: seq<int>)
      reads this
      requires itemsPerPage != 0
      ensures |r| == Max(0, TotalPages())
      ensures forall p :: p in r <==> 1 <= p <= TotalPages()
      ensures forall i :: 0 <= i < |r| - 1 ==> r[i] < r[i + 1]
    {
      OneToMembers(TotalPages());
      OneTo(TotalPages())
    }

    /** What emitChange sends: the current page and page size. */
    function ChangeEvent(): PaginationEvent
      reads this
    {
      PaginationEvent(currentPage, itemsPerPage)
    }

    /** changePage: a page outside 1..totalPages is ignored; any other becomes current and is emitted. */
    method ChangePage(page: int) returns (emitted: Option<PaginationEvent>)
      requires itemsPerPage != 0
      modifies this`currentPage
      ensures page < 1 || page > TotalPages() ==> currentPage == old(currentPage) && emitted == None
      ensures 1 <= page <= TotalPages() ==>
        currentPage == page && emitted == Some(PaginationEvent(page, itemsPerPage))
      ensures emitted.Some? ==> 1 <= currentPage <= TotalPages()
    {
      if page < 1 || page > TotalPages() {
        return None;
      }
      currentPage := page;
      emitted := Some(ChangeEvent());
    }

    /** changePageSize: the new size always takes effect, back on page 1, and is emitted. */
    method ChangePageSize(size: int) returns (emitted: PaginationEvent)
      modifies this`itemsPerPage, this`currentPage
      ensures itemsPerPage == size && currentPage == 1
      ensures emitted == PaginationEvent(1, size)
      ensures size > 0 ==> 1 <= currentPage <= TotalPages()
    {
      itemsPerPage := size;
      currentPage := 1;
      emitted := ChangeEvent();
    }
  }
}
