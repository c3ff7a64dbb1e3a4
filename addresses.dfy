/**
 * The address list of the iOS wallet: `AddressData` files every receiving
 * and change address of the wallet into a 3 x 4 table indexed by address
 * type (Any, Receiving, Change) and status (All, Funded, Unused, Used), and
 * sorts every cell by balance, then number of transactions (both largest
 * first), then index within its own address list (smallest first).
 *
 * The wallet library is not part of this model: what it reports about one
 * address (history length, balance, label, formatted amounts, frozen and
 * used flags) is taken as a given `AddressInfo`.
 */
module Addresses {
  import opened Wrappers
  import Sorting

  const Types: seq<string> := ["Any", "Receiving", "Change"]
  const Statuses: seq<string> := ["All", "Funded", "Unused", "Used"]

  const AnyType := 0
  const ReceivingType := 1
  const ChangeType := 2
  const AllStatus := 0
  const FundedStatus := 1
  const UnusedStatus := 2
  const UsedStatus := 3

  /** What the wallet reports about one address. */
  datatype AddressInfo = AddressInfo(
    address: string,         // canonical (storage) form of the address
    uiString: string,        // `address.to_ui_string()`
    labelText: string,       // `wallet.labels.get(..., '')`
    balanceStr: string,      // `format_amount(balance)`
    fiatBalanceStr: string,  // the fiat amount, used only when fiat display is on
    numTx: nat,              // `len(wallet.get_address_history(address))`
    isFrozen: bool,
    balance: int,            // `sum(wallet.get_addr_balance(address))`
    isUsed: bool)

  /** The receiving and change address lists of a wallet, in wallet order. */
  datatype WalletView = WalletView(receiving: seq<AddressInfo>, change: seq<AddressInfo>)

  /** One row of the address list (`AddressData.Entry`). */
  datatype Entry = Entry(
    address: string,
    addrStr: string,
    addrIdx: nat,
    labelText: string,
    balanceStr: string,
    fiatBalanceStr: string,
    numTx: nat,
    isFrozen: bool,
    balance: int,
    isChange: bool,
    isUsed: bool)

  function MakeEntry(info: AddressInfo, n: nat, isChange: bool, showFx: bool): Entry
  {
    Entry(info.address, info.uiString, n, info.labelText, info.balanceStr,
          if showFx then info.fiatBalanceStr else "",
          info.numTx, info.isFrozen, info.balance, isChange, info.isUsed)
  }

  /** The entries made from one address list, numbered by position in that list. */
  function EntriesOf(infos: seq<AddressInfo>, isChange: bool, showFx: bool): seq<Entry>
  {
    seq(|infos|, n requires 0 <= n < |infos| => MakeEntry(infos[n], n, isChange, showFx))
  }

  /** Every entry of a wallet, in the order `refresh` visits them: receiving first, then change. */
  function AllEntries(w: WalletView, showFx: bool): seq<Entry>
  {
    EntriesOf(w.receiving, false, showFx) + EntriesOf(w.change, true, showFx)
  }

  /** Whether an entry belongs in cell [t][s] of the table. */
  predicate InBucket(e: Entry, t: int, s: int)
  {
    && (t == AnyType || (t == ReceivingType && !e.isChange) || (t == ChangeType && e.isChange))
    && (s == AllStatus || (s == FundedStatus && e.balance != 0)
        || (s == UnusedStatus && e.numTx == 0) || (s == UsedStatus && e.numTx != 0))
  }

  /** The entries of `es` that belong in cell [t][s], in the order of `es`. */
  function Bucket(es: seq<Entry>, t: int, s: int): seq<Entry>
  {
    if es == [] then []
    else Bucket(es[..|es| - 1], t, s) + (if InBucket(es[|es| - 1], t, s) then [es[|es| - 1]] else [])
  }

  /** The sort order: `a` may precede `b` (key [balance, num_tx, -addr_idx], largest first). */
  function KeyGe(a: Entry, b: Entry): bool
  {
    || a.balance > b.balance
    || (a.balance == b.balance && (a.numTx > b.numTx || (a.numTx == b.numTx && a.addrIdx <= b.addrIdx)))
  }

  function EmptyTable(): seq<seq<seq<Entry>>>
  {
    seq(|Types|, t => seq(|Statuses|, s => []))
  }

  /** The table after the filing loop, before sorting. */
  function Placed(es: seq<Entry>): seq<seq<seq<Entry>>>
  {
    seq(|Types|, t => seq(|Statuses|, s => Bucket(es, t, s)))
  }

  /** The table `refresh` leaves: every cell filed and sorted. */
  function Table(es: seq<Entry>): seq<seq<seq<Entry>>>
  {
    seq(|Types|, t => seq(|Statuses|, s => Sorting.SortBy(Bucket(es, t, s), KeyGe)))
  }

  /** A table with one more entry appended to every cell it belongs in. */
  function AddItem(m: seq<seq<seq<Entry>>>, e: Entry): seq<seq<seq<Entry>>>
    requires IsTable(m)
  {
    seq(|Types|, t requires 0 <= t < |Types| =>
      seq(|Statuses|, s requires 0 <= s < |Statuses| =>
        m[t][s] + (if InBucket(e, t, s) then [e] else [])))
  }

  /** The type row an entry belongs in besides Any. */
  function TypeOf(e: Entry): int
  {
    if e.isChange then ChangeType else ReceivingType
  }

  /** A table with `e` appended to cell [Any][s] and to cell [TypeOf(e)][s]. */
  function AddStatus(m: seq<seq<seq<Entry>>>, e: Entry, s: int): (r: seq<seq<seq<Entry>>>)
    requires IsTable(m) && 0 <= s < |Statuses|
    ensures IsTable(r)
  {
    seq(|Types|, t requires 0 <= t < |Types| =>
      seq(|Statuses|, s' requires 0 <= s' < |Statuses| =>
        m[t][s'] + (if s' == s && (t == AnyType || t == TypeOf(e)) then [e] else [])))
  }

  /** Filing an entry is the All pair, the Funded pair if it has a balance, and the Used or Unused pair. */
  lemma AddItemByStatus(m: seq<seq<seq<Entry>>>, e: Entry)
    requires IsTable(m)
    ensures var m1 := AddStatus(m, e, AllStatus);
      var m2 := if e.balance != 0 then AddStatus(m1, e, FundedStatus) else m1;
      AddItem(m, e) == AddStatus(m2, e, if e.numTx != 0 then UsedStatus else UnusedStatus)
  {
    var m1 := AddStatus(m, e, AllStatus);
    var m2 := if e.balance != 0 then AddStatus(m1, e, FundedStatus) else m1;
    var m3 := AddStatus(m2, e, if e.numTx != 0 then UsedStatus else UnusedStatus);
    forall t | 0 <= t < |Types| ensures AddItem(m, e)[t] == m3[t] {
      forall s | 0 <= s < |Statuses| ensures AddItem(m, e)[t][s] == m3[t][s] {
        if s == AllStatus {
          assert m3[t][s] == m2[t][s] == m1[t][s];
        } else if s == FundedStatus {
          assert m1[t][s] == m[t][s] && m3[t][s] == m2[t][s];
        } else {
          assert m2[t][s] == m1[t][s] == m[t][s];
        }
      }
    }
  }

  predicate IsTable(m: seq<seq<seq<Entry>>>)
  {
    |m| == |Types| && forall t :: 0 <= t < |Types| ==> |m[t]| == |Statuses|
  }

  /** Python indexing `xs[i]` of a list of length `len`: negative indices count from the end. */
  function PyIndex(len: nat, i: int): (r: Option<nat>)
    ensures r.Some? <==> -(len as int) <= i < len
    ensures r.Some? ==> r.value < len && (r.value == i || r.value == i + len)
  {
    if 0 <= i < len then Some(i)
    else if -(len as int) <= i < 0 then Some(i + len)
    else None
  }

  class AddressData {
    var showFx: bool
    var master: seq<seq<seq<Entry>>>

    ghost predicate Valid()
      reads this
    {
      IsTable(master)
    }

    constructor ()
      ensures Valid()
      ensures master == EmptyTable() && !showFx
    {
      showFx := false;
      master := EmptyTable();
    }

    /** `clear`: fiat display off and a table of empty lists. */
    method Clear()
      modifies this
      ensures Valid()
      ensures master == EmptyTable() && !showFx
    {
      showFx := false;
      master := EmptyTable();
    }

    /** `master[t][s].append(e)`. */
    method Append(t: nat, s: nat, e: Entry)
      requires Valid() && t < |Types| && s < |Statuses|
      modifies this
      ensures Valid() && showFx == old(showFx)
      ensures master == old(master)[t := old(master)[t][s := old(master)[t][s] + [e]]]
    {
      master := master[t := master[t][s := master[t][s] + [e]]];
    }

    /** The two appends for one status: the Any row and the entry's own type row. */
    method AppendPair(s: nat, item: Entry)
      requires Valid() && s < |Statuses|
      modifies this
      ensures Valid() && showFx == old(showFx)
      ensures master == AddStatus(old(master), item, s)
    {
      Append(AnyType, s, item);
      Append(TypeOf(item), s, item);
      forall t | 0 <= t < |Types| ensures master[t] == AddStatus(old(master), item, s)[t] {
        assert forall s' :: 0 <= s' < |Statuses| ==> master[t][s'] == AddStatus(old(master), item, s)[t][s'];
      }
    }

    /** The body of the filing loop for one entry. */
    method Place(item: Entry)
      requires Valid()
      modifies this
      ensures Valid() && showFx == old(showFx)
      ensures master == AddItem(old(master), item)
    {
      AppendPair(AllStatus, item);
      if item.balance != 0 {
        AppendPair(FundedStatus, item);
      }
      if item.numTx != 0 {
        AppendPair(UsedStatus, item);
      } else {
        AppendPair(UnusedStatus, item);
      }
      AddItemByStatus(old(master), item);
    }

    /**
     * `refresh`: clear, then (with a wallet) file every receiving and then
     * every change address, and sort every cell. `fxOn` is the fiat switch
     * `daemon and daemon.fx and daemon.fx.get_fiat_address_config()`.
     */
    method Refresh(wallet: Option<WalletView>, fxOn: bool)
      modifies this
      ensures Valid()
      ensures wallet.None? ==> master == EmptyTable() && !showFx
      ensures wallet.Some? ==> showFx == fxOn && master == Table(AllEntries(wallet.value, fxOn))
    {
      Clear();
      if wallet.None? {
        return;
      }
      var w := wallet.value;
      showFx := fxOn;
      PlacedEmpty();
      var sequences := if |w.change| > 0 then [false, true] else [false];
      ghost var done: seq<Entry> := [];
      for k := 0 to |sequences|
        invariant Valid() && showFx == fxOn
        invariant done == Visited(w, fxOn, k)
        invariant master == Placed(done)
      {
        var isChange := sequences[k];
        var addrList := if isChange then w.change else w.receiving;
        FileList(addrList, isChange, done);
        done := done + EntriesOf(addrList, isChange, fxOn);
      }
      assert done == AllEntries(w, fxOn) by {
        if |w.change| == 0 {
          assert EntriesOf(w.change, true, fxOn) == [];
        }
      }
      assert master == Placed(AllEntries(w, fxOn));
      SortCells();
      assert master == Table(AllEntries(w, fxOn)) by {
        forall t | 0 <= t < |Types| ensures master[t] == Table(AllEntries(w, fxOn))[t] {
        }
      }
    }

    /** The inner filing loop of `refresh`: every address of one list, numbered by position. */
    method FileList(addrList: seq<AddressInfo>, isChange: bool, ghost done: seq<Entry>)
      requires Valid() && master == Placed(done)
      modifies this
      ensures Valid() && showFx == old(showFx)
      ensures master == Placed(done + EntriesOf(addrList, isChange, showFx))
    {
      assert done + EntriesOf(addrList[..0], isChange, showFx) == done;
      for n := 0 to |addrList|
        invariant Valid() && showFx == old(showFx)
        invariant master == Placed(done + EntriesOf(addrList[..n], isChange, showFx))
      {
        var item := MakeEntry(addrList[n], n, isChange, showFx);
        Place(item);
        EntriesOfStep(addrList, n, isChange, showFx);
        PlacedAppend(done + EntriesOf(addrList[..n], isChange, showFx), item);
        assert done + EntriesOf(addrList[..n + 1], isChange, showFx)
            == (done + EntriesOf(addrList[..n], isChange, showFx)) + [item];
      }
      assert addrList[..|addrList|] == addrList;
    }

    /** The sorting pass of `refresh`: `l2.sort(key=..., reverse=True)` on every cell. */
    method SortCells()
      requires Valid()
      modifies this
      ensures Valid() && showFx == old(showFx)
      ensures forall t, s :: 0 <= t < |Types| && 0 <= s < |Statuses| ==>
        master[t][s] == Sorting.SortBy(old(master)[t][s], KeyGe)
    {
      for i := 0 to |Types|
        invariant Valid() && showFx == old(showFx)
        invariant forall t, s :: 0 <= t < |Types| && 0 <= s < |Statuses| ==>
          master[t][s] == if t < i then Sorting.SortBy(old(master)[t][s], KeyGe) else old(master)[t][s]
      {
        for j := 0 to |Statuses|
          invariant Valid() && showFx == old(showFx)
          invariant forall t, s :: 0 <= t < |Types| && 0 <= s < |Statuses| ==>
            master[t][s] == if t < i || (t == i && s < j) then Sorting.SortBy(old(master)[t][s], KeyGe) else old(master)[t][s]
        {
          master := master[i := master[i][j := Sorting.SortBy(master[i][j], KeyGe)]];
        }
      }
    }
  }

  /** The entries visited by the first `k` passes of the outer filing loop. */
  ghost function Visited(w: WalletView, fxOn: bool, k: int): seq<Entry>
  {
    if k <= 0 then []
    else if k == 1 then EntriesOf(w.receiving, false, fxOn)
    else EntriesOf(w.receiving, false, fxOn) + EntriesOf(w.change, true, fxOn)
  }

  lemma PlacedEmpty()
    ensures Placed([]) == EmptyTable()
  {
    forall t | 0 <= t < |Types| ensures Placed([])[t] == EmptyTable()[t] {
    }
  }

  lemma EntriesOfStep(infos: seq<AddressInfo>, n: nat, isChange: bool, fx: bool)
    requires n < |infos|
    ensures EntriesOf(infos[..n + 1], isChange, fx)
         == EntriesOf(infos[..n], isChange, fx) + [MakeEntry(infos[n], n, isChange, fx)]
  {
  }

  lemma PlacedAppend(es: seq<Entry>, e: Entry)
    ensures IsTable(Placed(es))
    ensures Placed(es + [e]) == AddItem(Placed(es), e)
  {
    assert (es + [e])[..|es|] == es;
    forall t | 0 <= t < |Types| ensures Placed(es + [e])[t] == AddItem(Placed(es), e)[t] {
    }
  }

  /** How often `e` occurs in cell [t][s]: as often as in the input, if it belongs there at all. */
  lemma {:induction false} BucketCount(es: seq<Entry>, t: int, s: int, e: Entry)
    ensures multiset(Bucket(es, t, s))[e] == if InBucket(e, t, s) then multiset(es)[e] else 0
  {
    if es != [] {
      var init := es[..|es| - 1];
      BucketCount(init, t, s, e);
      assert es == init + [es[|es| - 1]];
    }
  }

  lemma {:induction false} BucketAnyAll(es: seq<Entry>)
    ensures Bucket(es, AnyType, AllStatus) == es
  {
    if es != [] {
      BucketAnyAll(es[..|es| - 1]);
      assert es == es[..|es| - 1] + [es[|es| - 1]];
    }
  }

  /** The multiset of cell [t][s] of the finished table. */
  lemma TableCount(es: seq<Entry>, t: int, s: int, e: Entry)
    requires 0 <= t < |Types| && 0 <= s < |Statuses|
    ensures multiset(Table(es)[t][s])[e] == if InBucket(e, t, s) then multiset(es)[e] else 0
  {
    Sorting.SortPermutes(Bucket(es, t, s), KeyGe);
    BucketCount(es, t, s, e);
  }

  /** The sort key is a total preorder. */
  lemma KeyGeIsPreorder()
    ensures Sorting.TotalPreorder(KeyGe)
  {
  }

  /** Every entry is in the Any/All cell, which holds exactly the entries processed. */
  lemma AnyAllHoldsEveryEntry(es: seq<Entry>)
    ensures multiset(Table(es)[AnyType][AllStatus]) == multiset(es)
    ensures |Table(es)[AnyType][AllStatus]| == |es|
  {
    BucketAnyAll(es);
    Sorting.SortPermutes(es, KeyGe);
  }

  /**
   * The Receiving cells hold only receiving entries, the Change cells only
   * change entries, and each Any cell is their multiset union.
   */
  lemma TypeCellsSplitAny(es: seq<Entry>, s: int)
    requires 0 <= s < |Statuses|
    ensures forall e :: e in Table(es)[ReceivingType][s] ==> !e.isChange
    ensures forall e :: e in Table(es)[ChangeType][s] ==> e.isChange
    ensures multiset(Table(es)[AnyType][s])
         == multiset(Table(es)[ReceivingType][s]) + multiset(Table(es)[ChangeType][s])
  {
    forall e | e in Table(es)[ReceivingType][s] ensures !e.isChange {
      TableCount(es, ReceivingType, s, e);
    }
    forall e | e in Table(es)[ChangeType][s] ensures e.isChange {
      TableCount(es, ChangeType, s, e);
    }
    forall e ensures multiset(Table(es)[AnyType][s])[e]
                  == (multiset(Table(es)[ReceivingType][s]) + multiset(Table(es)[ChangeType][s]))[e]
    {
      TableCount(es, AnyType, s, e);
      TableCount(es, ReceivingType, s, e);
      TableCount(es, ChangeType, s, e);
    }
  }

  /** A Funded cell holds exactly the entries of its All cell whose balance is nonzero. */
  lemma FundedIsNonzeroBalance(es: seq<Entry>, t: int, e: Entry)
    requires 0 <= t < |Types|
    ensures multiset(Table(es)[t][FundedStatus])[e]
         == if e.balance != 0 then multiset(Table(es)[t][AllStatus])[e] else 0
  {
    TableCount(es, t, FundedStatus, e);
    TableCount(es, t, AllStatus, e);
  }

  /**
   * Unused and Used split each All cell by whether the address has any
   * history: disjoint, and together the whole cell. The stored `is_used`
   * flag plays no part.
   */
  lemma UsedUnusedPartition(es: seq<Entry>, t: int)
    requires 0 <= t < |Types|
    ensures forall e :: e in Table(es)[t][UnusedStatus] ==> e.numTx == 0
    ensures forall e :: e in Table(es)[t][UsedStatus] ==> e.numTx != 0
    ensures multiset(Table(es)[t][UnusedStatus]) + multiset(Table(es)[t][UsedStatus])
         == multiset(Table(es)[t][AllStatus])
    ensures forall e: Entry, b: bool, s: int :: InBucket(e.(isUsed := b), t, s) == InBucket(e, t, s)
  {
    forall e | e in Table(es)[t][UnusedStatus] ensures e.numTx == 0 {
      TableCount(es, t, UnusedStatus, e);
    }
    forall e | e in Table(es)[t][UsedStatus] ensures e.numTx != 0 {
      TableCount(es, t, UsedStatus, e);
    }
    forall e ensures (multiset(Table(es)[t][UnusedStatus]) + multiset(Table(es)[t][UsedStatus]))[e]
                  == multiset(Table(es)[t][AllStatus])[e]
    {
      TableCount(es, t, UnusedStatus, e);
      TableCount(es, t, UsedStatus, e);
      TableCount(es, t, AllStatus, e);
    }
  }

  /**
   * Every cell is ordered by balance, then number of transactions (largest
   * first), then address index (smallest first); entries with equal keys
   * stay in filing order (receiving before change).
   */
  lemma CellsOrdered(es: seq<Entry>, t: int, s: int, x: Entry)
    requires 0 <= t < |Types| && 0 <= s < |Statuses|
    ensures forall i, j :: 0 <= i < j < |Table(es)[t][s]| ==> KeyGe(Table(es)[t][s][i], Table(es)[t][s][j])
    ensures Sorting.Tied(Table(es)[t][s], KeyGe, x) == Sorting.Tied(Bucket(es, t, s), KeyGe, x)
  {
    KeyGeIsPreorder();
    Sorting.SortSorted(Bucket(es, t, s), KeyGe);
    Sorting.SortStable(Bucket(es, t, s), KeyGe, x);
  }

  /** `addr_idx` is the position of the address in its own receiving or change list. */
  lemma EntriesNumbered(w: WalletView, fx: bool, i: int)
    requires 0 <= i < |AllEntries(w, fx)|
    ensures |AllEntries(w, fx)| == |w.receiving| + |w.change|
    ensures var e := AllEntries(w, fx)[i];
      if i < |w.receiving| then
        e.addrIdx == i && !e.isChange && e.address == w.receiving[i].address
      else
        e.addrIdx == i - |w.receiving| && e.isChange && e.address == w.change[i - |w.receiving|].address
  {
  }

  /** `EntryForAddress`'s search: the first entry with the given address. */
  function FirstWithAddress(l: seq<Entry>, query: string): Option<Entry>
  {
    if l == [] then None
    else if l[0].address == query then Some(l[0])
    else FirstWithAddress(l[1..], query)
  }

  lemma {:induction false} FirstWithAddressFinds(l: seq<Entry>, query: string)
    ensures FirstWithAddress(l, query).None? <==> forall e :: e in l ==> e.address != query
    ensures FirstWithAddress(l, query).Some? ==>
      exists i :: 0 <= i < |l| && l[i] == FirstWithAddress(l, query).value
        && l[i].address == query && forall j :: 0 <= j < i ==> l[j].address != query
  {
    if l != [] && l[0].address != query {
      FirstWithAddressFinds(l[1..], query);
      if FirstWithAddress(l, query).Some? {
        var i :| 0 <= i < |l[1..]| && l[1..][i] == FirstWithAddress(l, query).value
          && l[1..][i].address == query && forall j :: 0 <= j < i ==> l[1..][j].address != query;
        assert l[i + 1] == l[1..][i];
        assert forall j :: 0 < j < i + 1 ==> l[j] == l[1..][j - 1];
      }
    } else if l != [] {
      assert l[0] == FirstWithAddress(l, query).value;
    }
  }

  datatype LookupError = NoAddressesScreen

  /**
   * `EntryForAddress`: raises without an address screen, gives None when
   * the screen has no address data yet, and otherwise scans the Any/All cell.
   */
  method EntryForAddress(hasScreen: bool, data: AddressData?, query: string)
    returns (r: Result<Option<Entry>, LookupError>)
    requires data != null ==> data.Valid()
    ensures !hasScreen <==> r.Err?
    ensures hasScreen && data == null ==> r == Ok(None)
    ensures hasScreen && data != null ==> r == Ok(FirstWithAddress(data.master[AnyType][AllStatus], query))
  {
    if !hasScreen {
      return Err(NoAddressesScreen);
    }
    if data == null {
      return Ok(None);
    }
    var l := data.master[AnyType][AllStatus];
    var i := 0;
    while i < |l|
      invariant 0 <= i <= |l|
      invariant FirstWithAddress(l, query) == FirstWithAddress(l[i..], query)
    {
      assert l[i..][1..] == l[i + 1..];
      if l[i].address == query {
        return Ok(Some(l[i]));
      }
      i := i + 1;
    }
    return Ok(None);
  }

  /** The cell the two selectors pick, if the selections index the table (Python indexing). */
  function SelectedCell(data: AddressData, typeSel: int, statusSel: int): Option<seq<Entry>>
    reads data
    requires data.Valid()
  {
    match PyIndex(|Types|, typeSel)
    case None => None
    case Some(t) =>
      match PyIndex(|Statuses|, statusSel)
      case None => None
      case Some(s) => Some(data.master[t][s])
  }

  /**
   * Rows shown for the selected cell: at least one (the "No Match" row),
   * zero without address data or when a selection is out of range.
   */
  function RowCount(data: AddressData?, typeSel: int, statusSel: int): (n: nat)
    reads data
    requires data != null ==> data.Valid()
    ensures n == 0 <==> data == null || SelectedCell(data, typeSel, statusSel).None?
    ensures n != 0 ==> n == if |SelectedCell(data, typeSel, statusSel).value| > 1
                            then |SelectedCell(data, typeSel, statusSel).value| else 1
  {
    if data == null then 0
    else match SelectedCell(data, typeSel, statusSel)
      case None => 0
      case Some(cell) => if |cell| > 1 then |cell| else 1
  }

  /** Tapping a row: the entry behind it, or nothing for the "No Match" row or a row past the end. */
  function SelectRow(data: AddressData?, typeSel: int, statusSel: int, row: nat): (r: Option<Entry>)
    reads data
    requires data != null ==> data.Valid()
    ensures r.Some? <==> data != null && SelectedCell(data, typeSel, statusSel).Some?
                         && row < |SelectedCell(data, typeSel, statusSel).value|
    ensures r.Some? ==> r.value in SelectedCell(data, typeSel, statusSel).value
  {
    if data == null then None
    else match SelectedCell(data, typeSel, statusSel)
      case None => None
      case Some(cell) => if row < |cell| then Some(cell[row]) else None
  }

  /** Every shown row either selects its entry or is the inert "No Match" row of an empty cell. */
  lemma ShownRowsAreSafe(data: AddressData?, typeSel: int, statusSel: int, row: nat)
    requires data != null ==> data.Valid()
    requires row < RowCount(data, typeSel, statusSel)
    ensures SelectRow(data, typeSel, statusSel, row).None?
        <==> SelectedCell(data, typeSel, statusSel).value == []
  {
  }

  /** `_TYPES_BY_NAME` / `_STATUSES_BY_NAME`: each name maps to its (last) position. */
  method IndexByName(names: seq<string>) returns (m: map<string, nat>)
    ensures m.Keys == set k | k in names
    ensures forall k :: k in m ==> m[k] < |names| && names[m[k]] == k
    ensures forall k, j :: k in m && m[k] < j < |names| ==> names[j] != k
  {
    m := map[];
    for i := 0 to |names|
      invariant m.Keys == set k | k in names[..i]
      invariant forall k :: k in m ==> m[k] < i && names[m[k]] == k
      invariant forall k, j :: k in m && m[k] < j < i ==> names[j] != k
    {
      m := m[names[i] := i];
    }
    assert names[..|names|] == names;
  }

  /** What `IndexByName` promises about `m` built from `names`. */
  ghost predicate IndexesNames(names: seq<string>, m: map<string, nat>)
  {
    && m.Keys == (set k | k in names)
    && (forall k :: k in m ==> m[k] < |names| && names[m[k]] == k)
  }

  lemma TypeIndices(m: map<string, nat>)
    requires IndexesNames(Types, m)
    ensures m == map["Any" := AnyType, "Receiving" := ReceivingType, "Change" := ChangeType]
  {
    var t := Types;
    assert t[0] == "Any" && t[1] == "Receiving" && t[2] == "Change";
    assert "Any" in t && "Receiving" in t && "Change" in t;
    assert m.Keys == {"Any", "Receiving", "Change"};
    assert m["Any"] == AnyType && m["Receiving"] == ReceivingType && m["Change"] == ChangeType;
  }

  lemma StatusIndices(m: map<string, nat>)
    requires IndexesNames(Statuses, m)
    ensures m == map["All" := AllStatus, "Funded" := FundedStatus, "Unused" := UnusedStatus, "Used" := UsedStatus]
  {
    var t := Statuses;
    assert t[0] == "All" && t[1] == "Funded" && t[2] == "Unused" && t[3] == "Used";
    assert "All" in t && "Funded" in t && "Unused" in t && "Used" in t;
    assert m.Keys == {"All", "Funded", "Unused", "Used"};
    assert m["All"] == AllStatus && m["Funded"] == FundedStatus;
    assert m["Unused"] == UnusedStatus && m["Used"] == UsedStatus;
  }

  /** The module's two name tables agree with the index constants the model uses. */
  method NameTables() returns (typesByName: map<string, nat>, statusesByName: map<string, nat>)
    ensures typesByName == map["Any" := AnyType, "Receiving" := ReceivingType, "Change" := ChangeType]
    ensures statusesByName ==
      map["All" := AllStatus, "Funded" := FundedStatus, "Unused" := UnusedStatus, "Used" := UsedStatus]
  {
    typesByName := IndexByName(Types);
    TypeIndices(typesByName);
    statusesByName := IndexByName(Statuses);
    StatusIndices(statusesByName);
  }
}
