/** `ProductionOrderList`: the order table of the web client. Its helpers
    name statuses and step through them; the table shows one page of the
    orders whose number contains the search term, ignoring case. The page,
    the page size and the search term are the component's state. */
module OrderList {
  import opened Base
  import opened FrontTypes
  import Text

  const PlannedLabel: string := "Planejada"
  const InProgressLabel: string := "Em Produ\U{00E7}\U{00E3}o"
  const FinishedLabel: string := "Finalizada"
  const UnknownLabel: string := "Desconhecido"

  /** `getStatusLabel`. */
  function StatusLabel(status: int): (text: string)
    ensures status == 1 ==> text == PlannedLabel
    ensures status == 2 ==> text == InProgressLabel
    ensures status == 3 ==> text == FinishedLabel
    ensures !(1 <= status <= 3) ==> text == UnknownLabel
  {
    if status == 1 then PlannedLabel
    else if status == 2 then InProgressLabel
    else if status == 3 then FinishedLabel
    else UnknownLabel
  }

  /** The three statuses have three different labels, none of them the
      unknown one. */
  lemma LabelsDistinct(a: int, b: int)
    requires 1 <= a <= 3 && 1 <= b <= 3 && a != b
    ensures StatusLabel(a) != StatusLabel(b) && StatusLabel(a) != UnknownLabel
  {
  }

  /** `getNextStatusNumber`: 1 to 2 to 3 and back to 1; anything else
      restarts at 1. */
  function NextStatusNumber(status: int): (next: int)
    ensures 1 <= next <= 3
    ensures 1 <= status <= 3 ==> next == status % 3 + 1
    ensures !(1 <= status <= 3) ==> next == 1
  {
    if status == 1 then 2
    else if status == 2 then 3
    else if status == 3 then 1
    else 1
  }

  /** Three steps bring a status back to itself, and no fewer do. */
  lemma CycleOfThree(status: int)
    requires 1 <= status <= 3
    ensures NextStatusNumber(NextStatusNumber(NextStatusNumber(status))) == status
    ensures NextStatusNumber(status) != status
    ensures NextStatusNumber(NextStatusNumber(status)) != status
  {
  }

  /** Every status is reached, from exactly one status of the cycle. */
  lemma NextIsBijective(a: int, b: int)
    requires 1 <= a <= 3 && 1 <= b <= 3
    ensures NextStatusNumber(a) == NextStatusNumber(b) ==> a == b
    ensures exists c :: 1 <= c <= 3 && NextStatusNumber(c) == a
  {
    assert NextStatusNumber(if a == 1 then 3 else a - 1) == a;
  }

  /** `getNextStatusLabel`: the label of the next status, which is never
      the unknown label. */
  function NextStatusLabel(status: int): (text: string)
    ensures text != UnknownLabel
    ensures text == StatusLabel(NextStatusNumber(status))
  {
    StatusLabel(NextStatusNumber(status))
  }

  /** `toLowerCase` on the ASCII and Latin-1 capitals. */
  function LowerChar(c: char): (l: char)
    ensures 'A' <= c <= 'Z' ==> l as int == c as int + 32
    ensures !('A' <= c <= 'Z') && !('\U{00C0}' <= c <= '\U{00DE}') ==> l == c
    ensures '\U{00C0}' <= c <= '\U{00DE}' && c != '\U{00D7}' ==> l as int == c as int + 32
    ensures c == '\U{00D7}' ==> l == c
  {
    if 'A' <= c <= 'Z' || ('\U{00C0}' <= c <= '\U{00DE}' && c != '\U{00D7}') then (c as int + 32) as char else c
  }

  function ToLower(s: string): (r: string)
    ensures |r| == |s| && forall k :: 0 <= k < |s| ==> r[k] == LowerChar(s[k])
  {
    seq(|s|, k requires 0 <= k < |s| => LowerChar(s[k]))
  }

  /** Lowering twice is lowering once. */
  lemma ToLowerIdempotent(s: string)
    ensures ToLower(ToLower(s)) == ToLower(s)
  {
    forall k | 0 <= k < |s| ensures LowerChar(LowerChar(s[k])) == LowerChar(s[k]) {
      var c := s[k];
      if '\U{00C0}' <= c <= '\U{00DE}' && c != '\U{00D7}' {
        assert '\U{00E0}' <= LowerChar(c) <= '\U{00FE}';
      }
    }
  }

  /** `t` occurs in `s` starting at position `i`. */
  predicate OccursAt(s: string, t: string, i: int) {
    0 <= i <= |s| - |t| && s[i..i + |t|] == t
  }

  /** A slice of the tail is the slice of the whole one place further on. */
  lemma SliceOfTail(s: string, i: int, n: nat)
    requires 1 <= i && i + n <= |s|
    ensures s[1..][i - 1..i - 1 + n] == s[i..i + n]
  {
    var a, b := s[1..][i - 1..i - 1 + n], s[i..i + n];
    forall k | 0 <= k < n ensures a[k] == b[k] {
    }
  }

  /** `String.prototype.includes`: `t` occurs in `s` at some position. */
  function Includes(s: string, t: string): (b: bool)
    ensures b <==> exists i :: OccursAt(s, t, i)
    decreases |s|
  {
    if Text.StartsWith(s, t) then
      assert OccursAt(s, t, 0);
      true
    else if s == [] then false
    else
      var rest := Includes(s[1..], t);
      if rest then
        var j :| OccursAt(s[1..], t, j);
        assert s[j + 1..j + 1 + |t|] == s[1..][j..j + |t|];
        assert OccursAt(s, t, j + 1);
        true
      else
        assert forall i :: !OccursAt(s, t, i) by {
          forall i ensures !OccursAt(s, t, i) {
            if 0 < i <= |s| - |t| {
              SliceOfTail(s, i, |t|);
              assert !OccursAt(s[1..], t, i - 1);
            }
          }
        }
        false
  }

  /** Whether the search term finds an order: its lowered number includes
      the lowered term. */
  predicate Matches(order: FrontOrder, term: string) {
    Includes(ToLower(order.orderNumber), ToLower(term))
  }

  /** `filteredOrders`. */
  function Filtered(orders: seq<FrontOrder>, term: string): (r: seq<FrontOrder>)
    ensures |r| <= |orders|
    ensures forall o :: o in r <==> o in orders && Matches(o, term)
  {
    if orders == [] then []
    else (if Matches(orders[0], term) then [orders[0]] else []) + Filtered(orders[1..], term)
  }

  /** The filter distributes over concatenation, so it keeps the orders in
      the order the list has them. */
  lemma {:induction false} FilteredAppend(a: seq<FrontOrder>, b: seq<FrontOrder>, term: string)
    ensures Filtered(a + b, term) == Filtered(a, term) + Filtered(b, term)
  {
    if a == [] {
      assert a + b == b;
    } else {
      assert (a + b)[1..] == a[1..] + b;
      FilteredAppend(a[1..], b, term);
    }
  }

  /** The empty search term keeps every order. */
  lemma {:induction false} FilteredEmptyTerm(orders: seq<FrontOrder>)
    ensures Filtered(orders, "") == orders
  {
    if orders != [] {
      assert Matches(orders[0], "") by {
        assert Text.StartsWith(ToLower(orders[0].orderNumber), ToLower(""));
      }
      FilteredEmptyTerm(orders[1..]);
    }
  }

  /** Filtering a filtered list changes nothing. */
  lemma {:induction false} FilteredIdempotent(orders: seq<FrontOrder>, term: string)
    ensures Filtered(Filtered(orders, term), term) == Filtered(orders, term)
  {
    if orders != [] {
      var head := if Matches(orders[0], term) then [orders[0]] else [];
      assert Filtered(head, term) == head by {
        if head != [] {
          assert head[1..] == [];
        }
      }
      FilteredAppend(head, Filtered(orders[1..], term), term);
      FilteredIdempotent(orders[1..], term);
    }
  }

  function Min(a: int, b: int): int {
    if a <= b then a else b
  }

  /** `paginatedOrders`: the slice from `page * rows` of length `rows`,
      clamped to the list as `slice` clamps it. */
  function Paginated(s: seq<FrontOrder>, page: nat, rows: nat): (r: seq<FrontOrder>)
    ensures |r| <= rows
    ensures |r| == if page * rows >= |s| then 0 else Min(rows, |s| - page * rows)
    ensures forall i :: 0 <= i < |r| ==> r[i] == s[page * rows + i]
  {
    s[Min(page * rows, |s|)..Min(page * rows + rows, |s|)]
  }

  /** The first `k` pages, one after the other. */
  function Pages(s: seq<FrontOrder>, rows: nat, k: nat): seq<FrontOrder> {
    if k == 0 then [] else Pages(s, rows, k - 1) + Paginated(s, k - 1, rows)
  }

  /** The first `k` pages together are the first `k * rows` orders: no order
      is skipped or shown twice. */
  lemma {:induction false} PagesArePrefix(s: seq<FrontOrder>, rows: nat, k: nat)
    ensures Pages(s, rows, k) == s[..Min(k * rows, |s|)]
  {
    if k > 0 {
      PagesArePrefix(s, rows, k - 1);
      assert (k - 1) * rows + rows == k * rows;
      assert Paginated(s, k - 1, rows) == s[Min((k - 1) * rows, |s|)..Min(k * rows, |s|)];
      assert s[..Min((k - 1) * rows, |s|)] + s[Min((k - 1) * rows, |s|)..Min(k * rows, |s|)] == s[..Min(k * rows, |s|)];
    }
  }

  /** With a positive page size every order is on exactly the page its
      position gives. */
  lemma OrderOnItsPage(s: seq<FrontOrder>, rows: nat, i: nat)
    requires rows > 0 && i < |s|
    ensures i % rows < |Paginated(s, i / rows, rows)|
    ensures Paginated(s, i / rows, rows)[i % rows] == s[i]
  {
    assert (i / rows) * rows + i % rows == i;
  }

  /** Whatever the page, a page size at least the list's length leaves
      nothing beyond the first page: a later page is empty. */
  lemma LaterPageEmpty(s: seq<FrontOrder>, page: nat, rows: nat)
    requires page >= 1 && rows >= |s|
    ensures Paginated(s, page, rows) == []
  {
    assert page * rows >= rows;
  }

  /** The page sizes the table offers. */
  const RowsPerPageOptions: seq<nat> := [5, 10, 20, 50, 100, 500, 1000]

  /** The status button: no request while the order is being updated,
      otherwise a request for the next status, by label. */
  datatype StatusRequest = StatusRequest(orderId: int, statusLabel: string)

  function StatusClick(order: FrontOrder, updating: set<int>): (r: Option<StatusRequest>)
    ensures r.None? <==> order.id in updating
    ensures r.Some? ==> r.value.orderId == order.id && r.value.statusLabel == NextStatusLabel(order.status)
  {
    if order.id in updating then None else Some(StatusRequest(order.id, NextStatusLabel(order.status)))
  }

  /** The list's own state: the search term, the page and the page size. */
  class ListState {
    var searchTerm: string
    var page: nat
    var rowsPerPage: nat

    constructor ()
      ensures searchTerm == "" && page == 0 && rowsPerPage == 10
    {
      searchTerm := "";
      page := 0;
      rowsPerPage := 10;
    }

    /** The orders the table shows. */
    function Visible(orders: seq<FrontOrder>): (r: seq<FrontOrder>)
      reads this
      ensures |r| <= rowsPerPage
      ensures forall o :: o in r ==> o in orders && Matches(o, searchTerm)
    {
      Paginated(Filtered(orders, searchTerm), page, rowsPerPage)
    }

    /** `handleChangePage`. */
    method ChangePage(newPage: nat)
      modifies this
      ensures page == newPage
      ensures searchTerm == old(searchTerm) && rowsPerPage == old(rowsPerPage)
    {
      page := newPage;
    }

    /** `handleChangeRowsPerPage`: the pagination's size picker; the
      option's text is parsed and the page goes back to the first. */
    method ChangeRowsPerPage(option: nat)
      requires option in RowsPerPageOptions
      modifies this
      ensures rowsPerPage == option && page == 0
      ensures searchTerm == old(searchTerm)
    {
      var parsed := Text.ParseInt(Text.Decimal(option));
      Text.ParseDecimal(option);
      rowsPerPage := parsed.value;
      page := 0;
    }

    /** The size picker above the table: it sets the size and leaves the
        page where it was. */
    method SelectRowsPerPage(option: nat)
      requires option in RowsPerPageOptions
      modifies this
      ensures rowsPerPage == option
      ensures page == old(page) && searchTerm == old(searchTerm)
    {
      rowsPerPage := option;
    }

    /** Typing in the search box, followed by the effect on the search
        term, which goes back to the first page. */
    method SetSearchTerm(term: string)
      modifies this
      ensures searchTerm == term && page == 0
      ensures rowsPerPage == old(rowsPerPage)
    {
      searchTerm := term;
      page := 0;
    }
  }

  /** After a reset to the first page the table shows the first matches, up
      to a page of them. */
  lemma FirstPageShown(orders: seq<FrontOrder>, term: string, rows: nat)
    ensures Paginated(Filtered(orders, term), 0, rows)
         == Filtered(orders, term)[..Min(rows, |Filtered(orders, term)|)]
  {
  }
}
