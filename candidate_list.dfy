/** The candidate list's selection and paging state (candidate_list.py),
    without the Kodi controls it redraws. */
module CandidateList {
  import opened Common
  import opened PyStr
  import opened Candidates

  const PageSize := 9

  /** `(i + 1) % n`: the next index, wrapping to the first. */
  function NextIndex(i: int, n: int): (r: int)
    requires n > 0
    ensures 0 <= r < n
    ensures 0 <= i < n - 1 ==> r == i + 1
    ensures i == n - 1 ==> r == 0
  {
    (i + 1) % n
  }

  /** `(i - 1) % n` with Python's non-negative remainder: the previous index,
      wrapping to the last. */
  function PreviousIndex(i: int, n: int): (r: int)
    requires n > 0
    ensures 0 <= r < n
    ensures 0 < i < n ==> r == i - 1
    ensures i == 0 ==> r == n - 1
  {
    (i - 1) % n
  }

  /** Stepping forward and then back returns to the same candidate, and the
      other way round. */
  lemma NextPreviousInverse(i: int, n: int)
    requires 0 <= i < n
    ensures PreviousIndex(NextIndex(i, n), n) == i
    ensures NextIndex(PreviousIndex(i, n), n) == i
  {
  }

  /** The last page number, `(n - 1) // page_size`, which is -1 for an empty
      list (Python's floor division, like Dafny's on a positive divisor). */
  function MaxPage(n: nat): (r: int)
    ensures n == 0 ==> r == -1
    ensures n > 0 ==> 0 <= r && r * PageSize < n <= (r + 1) * PageSize
  {
    (n - 1) / PageSize
  }

  class CandidateListControl {
    var candidates: seq<Candidate>
    var selectedIndex: int
    var page: int

    /** The selection is a valid index (or 0 for an empty list) and the page
        is the one that shows it. */
    ghost predicate Valid()
      reads this
    {
      && (candidates == [] ==> selectedIndex == 0)
      && (candidates != [] ==> 0 <= selectedIndex < |candidates|)
      && page == selectedIndex / PageSize
    }

    constructor ()
      ensures Valid() && candidates == [] && selectedIndex == 0 && page == 0
    {
      candidates := [];
      selectedIndex := 0;
      page := 0;
    }

    /** `set_candidates`: a new list, with the first candidate selected. */
    method SetCandidates(candidates: seq<Candidate>)
      modifies this
      ensures Valid()
      ensures this.candidates == candidates && selectedIndex == 0 && page == 0
    {
      this.candidates := candidates;
      selectedIndex := 0;
      page := 0;
    }

    method Clear()
      modifies this
      ensures Valid()
      ensures candidates == [] && selectedIndex == 0 && page == 0
    {
      candidates := [];
      selectedIndex := 0;
      page := 0;
    }

    /** `select_next`: nothing on an empty list, otherwise the next candidate
        (wrapping round), with the page following the selection. */
    method SelectNext()
      requires Valid()
      modifies this
      ensures Valid() && candidates == old(candidates)
      ensures old(candidates) == [] ==> selectedIndex == old(selectedIndex) && page == old(page)
      ensures old(candidates) != [] ==> selectedIndex == NextIndex(old(selectedIndex), |candidates|)
    {
      if candidates == [] {
        return;
      }
      selectedIndex := NextIndex(selectedIndex, |candidates|);
      if selectedIndex / PageSize != page {
        page := selectedIndex / PageSize;
      }
    }

    /** `select_previous`: the mirror image of `SelectNext`. */
    method SelectPrevious()
      requires Valid()
      modifies this
      ensures Valid() && candidates == old(candidates)
      ensures old(candidates) == [] ==> selectedIndex == old(selectedIndex) && page == old(page)
      ensures old(candidates) != [] ==> selectedIndex == PreviousIndex(old(selectedIndex), |candidates|)
    {
      if candidates == [] {
        return;
      }
      selectedIndex := PreviousIndex(selectedIndex, |candidates|);
      if selectedIndex / PageSize != page {
        page := selectedIndex / PageSize;
      }
    }

    /** `select_by_number`: key `num` (1 to 9) picks that slot of the current
        page, if the slot holds a candidate; otherwise nothing changes. */
    method SelectByNumber(num: int) returns (r: Option<Candidate>)
      requires Valid()
      modifies this
      ensures Valid() && candidates == old(candidates) && page == old(page)
      ensures r.None? <==> num < 1 || num > PageSize || page * PageSize + num - 1 >= |candidates|
      ensures r.None? ==> selectedIndex == old(selectedIndex)
      ensures r.Some? ==> selectedIndex == page * PageSize + num - 1 && r.value == candidates[selectedIndex]
    {
      if num < 1 || num > PageSize {
        return None;
      }
      var index := page * PageSize + (num - 1);
      if index >= |candidates| {
        return None;
      }
      selectedIndex := index;
      r := Some(candidates[index]);
    }

    /** `get_selected`: the selected candidate, or None for an empty list. */
    function GetSelected(): (r: Option<Candidate>)
      requires Valid()
      reads this
      ensures r.None? <==> candidates == []
      ensures r.Some? ==> r.value == candidates[selectedIndex]
    {
      if candidates == [] || selectedIndex >= |candidates| then None
      else Some(candidates[selectedIndex])
    }

    /** `next_page`: one page on, selecting its first candidate, unless this
        is the last page. */
    method NextPage()
      requires Valid()
      modifies this
      ensures Valid() && candidates == old(candidates)
      ensures old(page) < MaxPage(|candidates|) ==> page == old(page) + 1 && selectedIndex == page * PageSize
      ensures old(page) >= MaxPage(|candidates|) ==> page == old(page) && selectedIndex == old(selectedIndex)
      ensures candidates != [] ==> page <= MaxPage(|candidates|)
    {
      var maxPage := MaxPage(|candidates|);
      if page < maxPage {
        page := page + 1;
        selectedIndex := page * PageSize;
      }
    }

    /** `previous_page`: one page back, selecting its first candidate, unless
        this is the first page. */
    method PreviousPage()
      requires Valid()
      modifies this
      ensures Valid() && candidates == old(candidates)
      ensures old(page) > 0 ==> page == old(page) - 1 && selectedIndex == page * PageSize
      ensures old(page) <= 0 ==> page == old(page) && selectedIndex == old(selectedIndex)
      ensures page >= 0
    {
      if page > 0 {
        page := page - 1;
        selectedIndex := page * PageSize;
      }
    }

    /** `total_pages`: enough pages of nine for every candidate, and no more. */
    function TotalPages(): (r: int)
      reads this
      ensures candidates == [] <==> r == 0
      ensures candidates != [] ==> (r - 1) * PageSize < |candidates| <= r * PageSize
    {
      if candidates == [] then 0 else MaxPage(|candidates|) + 1
    }

    /** `current_page`, counted from 1: the page that shows the selected
        candidate, and always one of the pages there are. */
    function CurrentPage(): (r: int)
      reads this
      ensures Valid() ==> (r - 1) * PageSize <= selectedIndex < r * PageSize
      ensures Valid() && candidates != [] ==> 1 <= r <= TotalPages()
    {
      page + 1
    }

    /** `get_page_info`: "第 current/total 頁", or empty without candidates. */
    function GetPageInfo(): (r: string)
      reads this
      ensures r == "" <==> candidates == []
      ensures candidates != [] ==> IsPrefix("第 ", r) && IsPrefix(" 頁", r[|r| - 2..])
    {
      if candidates == [] then ""
      else "第 " + IntToString(CurrentPage()) + "/" + IntToString(TotalPages()) + " 頁"
    }
  }

  /** The candidate bar: one label per control, numbered from 1. */
  class CandidateBar {
    const slots: nat
    var candidates: seq<Candidate>

    ghost predicate Valid()
      reads this
    {
      |candidates| <= slots
    }

    constructor (slots: nat)
      ensures Valid() && this.slots == slots && candidates == []
    {
      this.slots := slots;
      candidates := [];
    }

    /** `set_candidates`: as many leading candidates as there are labels. */
    method SetCandidates(candidates: seq<Candidate>)
      modifies this
      ensures Valid()
      ensures |this.candidates| == Min(slots, |candidates|) && IsPrefix(this.candidates, candidates)
    {
      this.candidates := SliceTo(candidates, slots);
    }

    method Clear()
      modifies this
      ensures Valid() && candidates == []
    {
      candidates := [];
    }

    /** `select`: label `num` (from 1), or None when there is no such label. */
    function Select(num: int): (r: Option<Candidate>)
      reads this
      ensures r.None? <==> num < 1 || num > |candidates|
      ensures r.Some? ==> r.value == candidates[num - 1]
    {
      if num < 1 || num > |candidates| then None else Some(candidates[num - 1])
    }
  }
}
