/** The administrator's export: for each selected history entry, one text
    record per item, named `{batch_id}_{k}.md` with `k` counting from 1. */
module Export {
  import opened Basics
  import opened Text
  import opened Tables
  import opened History

  /** The literal status written into every record. */
  const ListedStatus: string := "리스트업"

  const ItemNameKey: string := "품목명: "
  const RequesterKey: string := "신청자: "
  const RequestDateKey: string := "요청일: "
  const LinkKey: string := "구매링크: "
  const OptionKey: string := "옵션명: "
  const QuantityKey: string := "수량: "
  const UnitPriceKey: string := "개당금액: "
  const ApprovedDateLine: string := "신청일:"
  const StatusKey: string := "상태: "
  const Fence: string := "---"

  /** One entry of the archive. */
  datatype ExportFile = ExportFile(name: string, content: string)

  /** `option_name if option_name else ''`: `None` and `""` are both falsy. */
  function OptionText(o: Option<string>): (r: string)
    ensures o.None? ==> r == ""
    ensures o.Some? ==> r == o.value
  {
    match o
    case None => ""
    case Some(v) => v
  }

  /** The record's lines, in their fixed order; the last, empty, line gives
      the record its closing blank line. */
  function RecordLines(item: Item, requester: string, requestDate: string): seq<string> {
    [ Fence,
      ItemNameKey + item.itemName,
      RequesterKey + requester,
      RequestDateKey + requestDate,
      LinkKey + item.purchaseLink,
      OptionKey + OptionText(item.optionName),
      QuantityKey + Show(item.quantity),
      UnitPriceKey + Show(item.unitPrice),
      ApprovedDateLine,
      StatusKey + ListedStatus,
      Fence,
      "" ]
  }

  /** The text of one record. */
  function Record(item: Item, requester: string, requestDate: string): string {
    JoinLines(RecordLines(item, requester, requestDate))
  }

  /** `f"{batch_id}_{k}.md"`. */
  function FileName(batchId: string, k: nat): string {
    batchId + "_" + Show(k) + ".md"
  }

  /** The files of one entry, one per item in order. */
  function EntryFiles(e: AdminEntry): (r: seq<ExportFile>)
    ensures |r| == |e.entry.items|
  {
    seq(|e.entry.items|, j requires 0 <= j < |e.entry.items| => ItemFile(e, j))
  }

  /** The selected indices are the distinct members of a set, and each must
      name a history entry whose date holds a token: otherwise the page's
      `history[idx]` or `split()[0]` raises. */
  predicate Exportable(history: seq<AdminEntry>, order: seq<nat>) {
    && (forall i :: 0 <= i < |order| ==>
          order[i] < |history| && !AllSpace(history[order[i]].entry.submittedDate.text))
    && (forall i, j :: 0 <= i < j < |order| ==> order[i] != order[j])
  }

  /** The archive's files, selected entry by selected entry, in the order the
      selection set is iterated. */
  function ExportSelected(history: seq<AdminEntry>, order: seq<nat>): seq<ExportFile>
    requires Exportable(history, order)
  {
    if |order| == 0 then []
    else EntryFiles(history[order[0]]) + ExportSelected(history, order[1..])
  }

  /** The number of items in the selected entries. */
  function SelectedItems(history: seq<AdminEntry>, order: seq<nat>): nat
    requires forall i :: 0 <= i < |order| ==> order[i] < |history|
  {
    if |order| == 0 then 0 else |history[order[0]].entry.items| + SelectedItems(history, order[1..])
  }

  // ---------------------------------------------------------------------
  // Properties
  // ---------------------------------------------------------------------

  /** The archive has one file per item of every selected entry. */
  lemma {:induction false} ExportCount(history: seq<AdminEntry>, order: seq<nat>)
    requires Exportable(history, order)
    ensures |ExportSelected(history, order)| == SelectedItems(history, order)
  {
    if |order| > 0 {
      ExportCount(history, order[1..]);
    }
  }

  /** The file exported for item `j` (from 0) of entry `e`: named after the
      batch id and the item's 1-based position, with the entry's owner as
      requester and the first token of its date as request date. */
  function ItemFile(e: AdminEntry, j: nat): ExportFile
    requires j < |e.entry.items|
  {
    ExportFile(FileName(e.entry.batchId, j + 1),
               Record(e.entry.items[j], e.username, FirstToken(e.entry.submittedDate.text)))
  }

  /** `f` is the file of some item of the `i`-th selected entry. */
  predicate FromSelected(history: seq<AdminEntry>, order: seq<nat>, i: nat, f: ExportFile)
    requires Exportable(history, order)
  {
    i < |order| && exists j :: 0 <= j < |history[order[i]].entry.items| && f == ItemFile(history[order[i]], j)
  }

  /** Every file of the archive is the record of one item of one selected
      entry. */
  lemma {:induction false} ExportedFileIsItemRecord(history: seq<AdminEntry>, order: seq<nat>, p: nat)
    requires Exportable(history, order)
    requires p < |ExportSelected(history, order)|
    ensures exists i :: 0 <= i < |order| && FromSelected(history, order, i, ExportSelected(history, order)[p])
  {
    var head := EntryFiles(history[order[0]]);
    var rest := order[1..];
    var files := ExportSelected(history, order);
    assert Exportable(history, rest);
    assert files == head + ExportSelected(history, rest);
    if p < |head| {
      FirstEntryFile(history, order, p);
      assert 0 < |order| && FromSelected(history, order, 0, files[p]);
    } else {
      var f := ExportSelected(history, rest)[p - |head|];
      assert files[p] == f;
      ExportedFileIsItemRecord(history, rest, p - |head|);
      var i :| 0 <= i < |rest| && FromSelected(history, rest, i, f);
      FromSelectedShift(history, order, i, f);
      assert i + 1 < |order| && FromSelected(history, order, i + 1, files[p]);
    }
  }

  lemma FirstEntryFile(history: seq<AdminEntry>, order: seq<nat>, p: nat)
    requires Exportable(history, order) && |order| > 0
    requires p < |EntryFiles(history[order[0]])|
    ensures FromSelected(history, order, 0, EntryFiles(history[order[0]])[p])
  {
    assert EntryFiles(history[order[0]])[p] == ItemFile(history[order[0]], p);
  }

  lemma FromSelectedShift(history: seq<AdminEntry>, order: seq<nat>, i: nat, f: ExportFile)
    requires Exportable(history, order) && |order| > 0
    requires Exportable(history, order[1..]) && FromSelected(history, order[1..], i, f)
    ensures FromSelected(history, order, i + 1, f)
  {
    assert order[1..][i] == order[i + 1];
  }

  /** The concatenation of a sequence of sequences. */
  function Concat<T>(parts: seq<seq<T>>): (r: seq<T>)
    ensures |r| == Lengths(parts)
  {
    if |parts| == 0 then [] else parts[0] + Concat(parts[1..])
  }

  /** The total length of a sequence of sequences. */
  function Lengths<T>(parts: seq<seq<T>>): nat {
    if |parts| == 0 then 0 else |parts[0]| + Lengths(parts[1..])
  }

  /** Element `j` of part `i` sits in the concatenation right after the
      elements of the parts before it. */
  lemma {:induction false} ConcatAt<T>(parts: seq<seq<T>>, i: nat, j: nat)
    requires i < |parts| && j < |parts[i]|
    ensures Lengths(parts[..i]) + j < |Concat(parts)|
    ensures Concat(parts)[Lengths(parts[..i]) + j] == parts[i][j]
  {
    if i == 0 {
      assert parts[..0] == [];
    } else {
      ConcatAt(parts[1..], i - 1, j);
      assert parts[..i][1..] == parts[1..][..i - 1];
    }
  }

  /** The selected entries' file lists, in selection order. */
  function SelectedFiles(history: seq<AdminEntry>, order: seq<nat>): (r: seq<seq<ExportFile>>)
    requires Exportable(history, order)
    ensures |r| == |order|
    ensures forall k :: 0 <= k < |order| ==> r[k] == EntryFiles(history[order[k]])
  {
    seq(|order|, k requires 0 <= k < |order| => EntryFiles(history[order[k]]))
  }

  /** The archive is the concatenation of the selected entries' file lists,
      and the files before the `i`-th one number the items selected before. */
  lemma {:induction false} ExportIsConcat(history: seq<AdminEntry>, order: seq<nat>, i: nat)
    requires Exportable(history, order) && i <= |order|
    ensures ExportSelected(history, order) == Concat(SelectedFiles(history, order))
    ensures Lengths(SelectedFiles(history, order)[..i]) == SelectedItems(history, order[..i])
  {
    if |order| > 0 {
      var parts, rest := SelectedFiles(history, order), order[1..];
      assert Exportable(history, rest);
      assert parts[1..] == SelectedFiles(history, rest);
      ExportIsConcat(history, rest, if i == 0 then 0 else i - 1);
      if i > 0 {
        assert parts[..i][1..] == parts[1..][..i - 1];
        assert order[..i][1..] == rest[..i - 1];
      } else {
        assert parts[..0] == [] && order[..0] == [];
      }
    } else {
      assert order[..0] == [];
      assert SelectedFiles(history, order)[..0] == [];
    }
  }

  /** Every item of every selected entry gets its file, at a fixed offset:
      after the files of the items selected before it, item `j` (from 0)
      of the `i`-th selected entry is that entry's file for the item. */
  lemma ItemExportedAt(history: seq<AdminEntry>, order: seq<nat>, i: nat, j: nat)
    requires Exportable(history, order)
    requires i < |order| && j < |history[order[i]].entry.items|
    ensures SelectedItems(history, order[..i]) + j < |ExportSelected(history, order)|
    ensures ExportSelected(history, order)[SelectedItems(history, order[..i]) + j] == EntryFiles(history[order[i]])[j]
  {
    var parts := SelectedFiles(history, order);
    ExportIsConcat(history, order, i);
    ConcatAt(parts, i, j);
  }

  /** The file of item `j` in an entry's list is `ItemFile` of that item. */
  lemma EntryFileIsItemFile(e: AdminEntry, j: nat)
    requires j < |e.entry.items|
    ensures EntryFiles(e)[j] == ItemFile(e, j)
  {
  }

  /** Export file names determine their batch id and number, as long as batch
      ids hold no `_` (the source's ids are hex prefixes of a UUID). */
  lemma FileNameInjective(b1: string, k1: nat, b2: string, k2: nat)
    requires forall i :: 0 <= i < |b1| ==> b1[i] != '_'
    requires forall i :: 0 <= i < |b2| ==> b2[i] != '_'
    requires FileName(b1, k1) == FileName(b2, k2)
    ensures b1 == b2 && k1 == k2
  {
    var n1, n2 := FileName(b1, k1), FileName(b2, k2);
    UnderscoreAt(b1, k1);
    UnderscoreAt(b2, k2);
    assert |b1| == |b2|;
    assert b1 == n1[..|b1|] && b2 == n2[..|b2|];
    var s1, s2 := Show(k1), Show(k2);
    assert |s1| == |n1| - |b1| - 4 && |s2| == |n2| - |b2| - 4;
    assert s1 == n1[|b1| + 1..|b1| + 1 + |s1|];
    assert s2 == n2[|b2| + 1..|b2| + 1 + |s2|];
    ShowInjective(k1, k2);
  }

  /** The first `_` of a file name ends the batch id. */
  lemma UnderscoreAt(b: string, k: nat)
    requires forall i :: 0 <= i < |b| ==> b[i] != '_'
    ensures var n := FileName(b, k); |b| < |n| && n[|b|] == '_' && forall i :: 0 <= i < |b| ==> n[i] != '_'
  {
  }

  /** Within one entry the file names are pairwise distinct, whatever the
      batch id: the shared batch id leaves the number to tell them apart. */
  lemma EntryNamesDistinct(e: AdminEntry, i: nat, j: nat)
    requires i < j < |e.entry.items|
    ensures EntryFiles(e)[i].name != EntryFiles(e)[j].name
  {
    var b := e.entry.batchId;
    assert FileName(b, i + 1) != FileName(b, j + 1) by { NumbersNameApart(b, i + 1, j + 1); }
    assert EntryFiles(e)[i].name == FileName(b, i + 1) by { EntryFileName(e, i); }
    assert EntryFiles(e)[j].name == FileName(b, j + 1) by { EntryFileName(e, j); }
  }

  lemma EntryFileName(e: AdminEntry, k: nat)
    requires k < |e.entry.items|
    ensures EntryFiles(e)[k].name == FileName(e.entry.batchId, k + 1)
  {
    EntryFileIsItemFile(e, k);
  }

  /** With one batch id, different numbers give different file names. */
  lemma NumbersNameApart(b: string, k1: nat, k2: nat)
    requires k1 != k2
    ensures FileName(b, k1) != FileName(b, k2)
  {
    var n1, n2 := FileName(b, k1), FileName(b, k2);
    if n1 == n2 {
      var s1, s2 := Show(k1), Show(k2);
      assert |s1| == |s2|;
      assert s1 == n1[|b| + 1..|b| + 1 + |s1|];
      assert s2 == n2[|b| + 1..|b| + 1 + |s2|];
      ShowInjective(k1, k2);
    }
  }

  /** A record reads back line by line into its fields, in the fixed order:
      item name, requester, request date, link, option ("" when falsy),
      quantity, unit price, an empty approved-date field, the literal status.
      Quantity and unit price parse back to the item's integers. Fields are
      assumed free of newlines (single-line text inputs). */
  lemma RecordReadsBack(item: Item, requester: string, requestDate: string)
    requires NoNewline(item.itemName) && NoNewline(item.purchaseLink)
    requires NoNewline(OptionText(item.optionName))
    requires NoNewline(requester) && NoNewline(requestDate)
    ensures var ls := SplitLines(Record(item, requester, requestDate));
      && |ls| == 12
      && ls[0] == Fence && ls[10] == Fence && ls[11] == ""
      && ls[1] == ItemNameKey + item.itemName
      && ls[2] == RequesterKey + requester
      && ls[3] == RequestDateKey + requestDate
      && ls[4] == LinkKey + item.purchaseLink
      && ls[5] == OptionKey + OptionText(item.optionName)
      && (exists d :: ls[6] == QuantityKey + d && ParseInt(d) == Some(item.quantity))
      && (exists d :: ls[7] == UnitPriceKey + d && ParseInt(d) == Some(item.unitPrice))
      && ls[8] == ApprovedDateLine
      && ls[9] == StatusKey + ListedStatus
  {
    var ls := RecordLines(item, requester, requestDate);
    assert SplitLines(Record(item, requester, requestDate)) == ls by {
      RecordLinesSingle(item, requester, requestDate);
      SplitJoin(ls);
    }
    assert ParseInt(Show(item.quantity)) == Some(item.quantity) by { ParseShow(item.quantity); }
    assert ParseInt(Show(item.unitPrice)) == Some(item.unitPrice) by { ParseShow(item.unitPrice); }
    assert ls[6] == QuantityKey + Show(item.quantity);
    assert ls[7] == UnitPriceKey + Show(item.unitPrice);
  }

  /** No line of a record holds a newline of its own. */
  lemma RecordLinesSingle(item: Item, requester: string, requestDate: string)
    requires NoNewline(item.itemName) && NoNewline(item.purchaseLink)
    requires NoNewline(OptionText(item.optionName))
    requires NoNewline(requester) && NoNewline(requestDate)
    ensures var ls := RecordLines(item, requester, requestDate);
      forall i :: 0 <= i < |ls| ==> NoNewline(ls[i])
  {
    NoNewlineAppend(ItemNameKey, item.itemName);
    NoNewlineAppend(RequesterKey, requester);
    NoNewlineAppend(RequestDateKey, requestDate);
    NoNewlineAppend(LinkKey, item.purchaseLink);
    NoNewlineAppend(OptionKey, OptionText(item.optionName));
    NoNewlineAppend(QuantityKey, Show(item.quantity));
    NoNewlineAppend(UnitPriceKey, Show(item.unitPrice));
    NoNewlineAppend(StatusKey, ListedStatus);
  }

  lemma NoNewlineAppend(a: string, b: string)
    requires NoNewline(a) && NoNewline(b)
    ensures NoNewline(a + b)
  {
    var s := a + b;
    forall i | 0 <= i < |s|
      ensures s[i] != '\n'
    {
      if i < |a| {
        assert s[i] == a[i];
      } else {
        assert s[i] == b[i - |a|];
      }
    }
  }
}
