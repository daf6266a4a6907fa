/**
 * The project content list: due-date wording, status colours, the CSV
 * export of the selected items, and the view state behind the checkboxes,
 * the delete dialog and the pager.
 */
module ProjectContentList {
  import opened Wrappers
  import opened Text
  import opened Tables

  /** Items per page; the list query asks for this many. */
  const PageSize: nat := 12

  /** One content item as the list query returns it. */
  datatype ContentItem = ContentItem(id: Id, title: string, channel: Option<string>, status: string,
                                     dueDate: Option<string>, tags: Option<seq<string>>)

  /** One page of the list query: the rows of the page and the total number of matching rows. */
  datatype PageData = PageData(items: seq<ContentItem>, total: int)

  // ------------------------------------------------------------ due dates

  const MsPerDay: int := 86400000

  /** `Math.ceil(diff / 86400000)` for a whole number of milliseconds. */
  function DayCount(diff: int): (days: int)
    ensures (days - 1) * MsPerDay < diff <= days * MsPerDay
  {
    var q := (-diff) / MsPerDay;
    assert -diff == q * MsPerDay + (-diff) % MsPerDay;
    -q
  }

  /** The wording `formatDueDate` picks; a calendar date carries the time to render, `None` for an unparseable one. */
  datatype DueText = NoDate | Overdue(days: nat) | Today | Tomorrow | InDays(days: nat) | CalendarDate(at: Option<Time>)

  /**
   * `formatDueDate` as a choice of wording; `parse` is `new Date(s)`, `None`
   * when the date is invalid (every comparison with its `NaN` fails, so it
   * falls through to the calendar date).
   */
  function DueBucket(dateStr: Option<string>, parse: string -> Option<Time>, now: Time): (d: DueText)
    ensures d == NoDate <==> dateStr.None? || dateStr.value == ""
    ensures d == CalendarDate(None) <==> dateStr.Some? && dateStr.value != "" && parse(dateStr.value).None?
    ensures d.Overdue? ==> d.days >= 1
    ensures d.InDays? ==> 2 <= d.days <= 6
  {
    if dateStr.None? || dateStr.value == "" then NoDate
    else match parse(dateStr.value)
      case None => CalendarDate(None)
      case Some(t) =>
        var days := DayCount(t - now);
        if days < 0 then Overdue(-days)
        else if days == 0 then Today
        else if days == 1 then Tomorrow
        else if days < 7 then InDays(days)
        else CalendarDate(Some(t))
  }

  /** The text shown; `locale` is `toLocaleDateString`. */
  function DueString(d: DueText, locale: Option<Time> -> string): string {
    match d
    case NoDate => "—"
    case Overdue(n) => "Overdue (" + NatToString(n) + "d)"
    case Today => "Today"
    case Tomorrow => "Tomorrow"
    case InDays(n) => "In " + NatToString(n) + " days"
    case CalendarDate(t) => locale(t)
  }

  function FormatDueDate(dateStr: Option<string>, parse: string -> Option<Time>, now: Time,
                         locale: Option<Time> -> string): (r: string)
    ensures dateStr.Some? && dateStr.value != "" && parse(dateStr.value).Some? ==>
              var diff := parse(dateStr.value).value - now;
              && (-MsPerDay < diff <= 0 ==> r == "Today")
              && (0 < diff <= MsPerDay ==> r == "Tomorrow")
  {
    DueString(DueBucket(dateStr, parse, now), locale)
  }

  /**
   * The wording by how far the due time lies from now: overdue once it is a
   * whole day past (by the whole days elapsed), `Today` for the day up to
   * now, `Tomorrow` for the next 24 hours (so a time later today already
   * reads `Tomorrow`), a day count up to six days ahead, a date beyond.
   */
  lemma DueBucketByTime(s: string, parse: string -> Option<Time>, now: Time, t: Time)
    requires s != "" && parse(s) == Some(t)
    ensures var r, diff := DueBucket(Some(s), parse, now), t - now;
      && (r.Overdue? <==> diff <= -MsPerDay)
      && (r.Overdue? ==> r.days * MsPerDay <= -diff < (r.days + 1) * MsPerDay)
      && (r == Today <==> -MsPerDay < diff <= 0)
      && (r == Tomorrow <==> 0 < diff <= MsPerDay)
      && (r.InDays? <==> MsPerDay < diff <= 6 * MsPerDay)
      && (r.InDays? ==> 2 <= r.days <= 6 && (r.days - 1) * MsPerDay < diff <= r.days * MsPerDay)
      && (r.CalendarDate? <==> 6 * MsPerDay < diff)
      && (r.CalendarDate? ==> r.at == Some(t))
  {
    var days := DayCount(t - now);
    assert (days - 1) * MsPerDay < t - now <= days * MsPerDay;
  }

  /** An absent or empty date reads `—`, an unparseable one is rendered as a date. */
  lemma DueWithoutTime(dateStr: Option<string>, parse: string -> Option<Time>, now: Time, locale: Option<Time> -> string)
    ensures (dateStr.None? || dateStr == Some("")) ==> FormatDueDate(dateStr, parse, now, locale) == "—"
    ensures (dateStr.Some? && dateStr.value != "" && parse(dateStr.value).None?)
            ==> FormatDueDate(dateStr, parse, now, locale) == locale(None)
  {
  }

  // --------------------------------------------------------- status colour

  const Muted: string := "bg-muted text-muted-foreground"

  /** `getStatusColor`: one accent per active status, the muted style for the rest. */
  function StatusColor(status: string): (r: string)
    ensures r == Muted <==> status !in {"in_review", "scheduled", "published"}
    ensures status == "in_review" ==> r == "bg-amber-500/20 text-amber-400"
    ensures status == "scheduled" ==> r == "bg-blue-500/20 text-blue-400"
    ensures status == "published" ==> r == "bg-emerald-500/20 text-emerald-400"
  {
    if status == "draft" then Muted
    else if status == "in_review" then "bg-amber-500/20 text-amber-400"
    else if status == "scheduled" then "bg-blue-500/20 text-blue-400"
    else if status == "published" then "bg-emerald-500/20 text-emerald-400"
    else if status == "archived" then Muted
    else Muted
  }

  // -------------------------------------------------------------- the CSV

  const Header: string := "Title,Channel,Status,Due Date,Tags"

  /** `replace(/"/g, '""')` */
  function DoubleQuotes(s: string): (r: string)
    ensures |r| >= |s|
  {
    if s == [] then [] else (if s[0] == '"' then "\"\"" else [s[0]]) + DoubleQuotes(s[1..])
  }

  /** The title field: the title inside quotes, each inner quote doubled. */
  function QuotedTitle(title: string): string {
    "\"" + DoubleQuotes(title) + "\""
  }

  /** A CSV reader's decoding of the inside of a quoted field: each `""` stands for one `"`. */
  function Undouble(s: string): string {
    if |s| >= 2 && s[0] == '"' && s[1] == '"' then "\"" + Undouble(s[2..])
    else if s == [] then []
    else [s[0]] + Undouble(s[1..])
  }

  /** A reader's decoding of a quoted field, `None` when it is not wrapped in quotes. */
  function UnquoteField(f: string): Option<string> {
    if |f| >= 2 && f[0] == '"' && f[|f| - 1] == '"' then Some(Undouble(f[1..|f| - 1])) else None
  }

  /** Inside the field every quote is one of a doubled pair, so no quote can end the field early. */
  predicate QuotesPaired(s: string)
    decreases |s|
  {
    if s == [] then true
    else if s[0] == '"' then |s| >= 2 && s[1] == '"' && QuotesPaired(s[2..])
    else QuotesPaired(s[1..])
  }

  lemma {:induction false} DoubledQuotesPaired(s: string)
    ensures QuotesPaired(DoubleQuotes(s))
  {
    if s != [] {
      var rest := DoubleQuotes(s[1..]);
      DoubledQuotesPaired(s[1..]);
      if s[0] == '"' {
        assert ("\"\"" + rest)[2..] == rest;
      } else {
        assert ([s[0]] + rest)[1..] == rest;
      }
    }
  }

  lemma {:induction false} UndoubleDoubled(s: string)
    ensures Undouble(DoubleQuotes(s)) == s
  {
    if s != [] {
      var rest := DoubleQuotes(s[1..]);
      UndoubleDoubled(s[1..]);
      if s[0] == '"' {
        assert ("\"\"" + rest)[2..] == rest;
      } else {
        assert ([s[0]] + rest)[1..] == rest;
      }
      assert [s[0]] + s[1..] == s;
    }
  }

  /** A reader gets the title back from its field, whatever quotes it holds. */
  lemma TitleRoundTrip(title: string)
    ensures UnquoteField(QuotedTitle(title)) == Some(title)
    ensures QuotesPaired(QuotedTitle(title)[1..|QuotedTitle(title)| - 1])
  {
    var f := QuotedTitle(title);
    assert f[1..|f| - 1] == DoubleQuotes(title);
    UndoubleDoubled(title);
    DoubledQuotesPaired(title);
  }

  /** The fields of one item's line: quoted title, channel, status, due date and `;`-joined tags, raw. */
  function Fields(item: ContentItem): (f: seq<string>)
    ensures |f| == 5 && UnquoteField(f[0]) == Some(item.title)
    ensures f[2] == item.status
  {
    TitleRoundTrip(item.title);
    [QuotedTitle(item.title), item.channel.GetOr(""), item.status, item.dueDate.GetOr(""),
     Join(item.tags.GetOr([]), ";")]
  }

  function Row(item: ContentItem): (r: string)
    ensures StartsWith(r, QuotedTitle(item.title) + ",")
  {
    var f := Fields(item);
    assert Join(f, ",") == f[0] + "," + Join(f[1..], ",");
    assert (f[0] + ",") + Join(f[1..], ",") == Join(f, ",");
    Join(Fields(item), ",")
  }

  function Rows(items: seq<ContentItem>): (r: seq<string>)
    ensures |r| == |items|
    ensures forall i :: 0 <= i < |items| ==> r[i] == Row(items[i])
  {
    if items == [] then [] else [Row(items[0])] + Rows(items[1..])
  }

  /** The page items whose id is selected, in page order. */
  function Chosen(selected: set<Id>, items: seq<ContentItem>): seq<ContentItem> {
    Select(items, (item: ContentItem) => item.id in selected)
  }

  /** `handleExport`'s file: nothing for an empty selection, else the header and one line per chosen item. */
  function ExportCsv(selected: set<Id>, items: seq<ContentItem>): (r: Option<string>)
    ensures r.None? <==> selected == {}
  {
    if |selected| == 0 then None
    else Some(Join([Header] + Rows(Chosen(selected, items)), "\n"))
  }

  /** No field of the item holds a line break. */
  predicate SingleLine(item: ContentItem) {
    && '\n' !in item.title
    && (item.channel.Some? ==> '\n' !in item.channel.value)
    && '\n' !in item.status
    && (item.dueDate.Some? ==> '\n' !in item.dueDate.value)
    && (item.tags.Some? ==> forall k :: 0 <= k < |item.tags.value| ==> '\n' !in item.tags.value[k])
  }

  lemma {:induction false} DoubleQuotesKeeps(s: string, c: char)
    requires c != '"' && c !in s
    ensures c !in DoubleQuotes(s)
  {
    if s != [] {
      DoubleQuotesKeeps(s[1..], c);
    }
  }

  lemma RowSingleLine(item: ContentItem)
    requires SingleLine(item)
    ensures '\n' !in Row(item)
  {
    DoubleQuotesKeeps(item.title, '\n');
    JoinExcludes(item.tags.GetOr([]), ";", '\n');
    var f := Fields(item);
    assert forall k :: 0 <= k < |f| ==> '\n' !in f[k];
    JoinExcludes(f, ",", '\n');
  }

  /** The header and the lines of single-line items hold no line break. */
  lemma LinesSingleLine(chosen: seq<ContentItem>)
    requires forall item :: item in chosen ==> SingleLine(item)
    ensures forall k :: 0 <= k < |[Header] + Rows(chosen)| ==> '\n' !in ([Header] + Rows(chosen))[k]
  {
    var lines := [Header] + Rows(chosen);
    forall k | 0 <= k < |lines| ensures '\n' !in lines[k] {
      if k > 0 {
        assert lines[k] == Row(chosen[k - 1]);
        RowSingleLine(chosen[k - 1]);
      }
    }
  }

  /** Each chosen line belongs to a selected page item, and each selected page item has its line. */
  lemma ChosenRows(selected: set<Id>, items: seq<ContentItem>)
    ensures var rows := Rows(Chosen(selected, items));
      && (forall item :: item in items && item.id in selected ==> Row(item) in rows)
      && (forall k :: 0 <= k < |rows| ==> exists item :: item in items && item.id in selected && rows[k] == Row(item))
  {
    var chosen := Chosen(selected, items);
    EveryChosenHasRow(chosen, Rows(chosen));
    EveryRowIsChosen(chosen, Rows(chosen));
  }

  lemma EveryChosenHasRow(chosen: seq<ContentItem>, rows: seq<string>)
    requires rows == Rows(chosen)
    ensures forall item :: item in chosen ==> Row(item) in rows
  {
    forall item | item in chosen ensures Row(item) in rows {
      var k :| 0 <= k < |chosen| && chosen[k] == item;
      assert rows[k] == Row(item);
    }
  }

  lemma EveryRowIsChosen(chosen: seq<ContentItem>, rows: seq<string>)
    requires rows == Rows(chosen)
    ensures forall k :: 0 <= k < |rows| ==> exists item :: item in chosen && rows[k] == Row(item)
  {
    forall k | 0 <= k < |rows| ensures exists item :: item in chosen && rows[k] == Row(item) {
      assert rows[k] == Row(chosen[k]);
    }
  }

  /**
   * When no field holds a line break, the file's lines are the header and
   * then the line of each selected page item, in page order (`ChosenRows`
   * says which items those are).
   */
  lemma ExportLines(selected: set<Id>, items: seq<ContentItem>)
    requires selected != {}
    requires forall item :: item in items ==> SingleLine(item)
    ensures Split(ExportCsv(selected, items).value, '\n') == [Header] + Rows(Chosen(selected, items))
  {
    var chosen := Chosen(selected, items);
    LinesSingleLine(chosen);
    SplitJoin([Header] + Rows(chosen), '\n');
  }

  // ------------------------------------------------------------ selection

  /** The ids of the page items. */
  function ItemIds(items: seq<ContentItem>): (r: set<Id>)
    ensures forall i :: 0 <= i < |items| ==> items[i].id in r
    ensures forall id :: id in r ==> exists i :: 0 <= i < |items| && items[i].id == id
  {
    if items == [] then {} else ItemIds(items[..|items| - 1]) + {items[|items| - 1].id}
  }

  predicate UniqueIds(items: seq<ContentItem>) {
    forall i, j :: 0 <= i < j < |items| ==> items[i].id != items[j].id
  }

  lemma {:induction false} ItemIdsCount(items: seq<ContentItem>)
    requires UniqueIds(items)
    ensures |ItemIds(items)| == |items|
  {
    if items != [] {
      var init := items[..|items| - 1];
      assert UniqueIds(init);
      ItemIdsCount(init);
      assert items[|items| - 1].id !in ItemIds(init);
    }
  }

  /**
   * The header checkbox as written: checked when the page is non-empty and
   * the selection has as many ids as the page has items.
   */
  predicate AllSelectedAsWritten(items: seq<ContentItem>, selected: set<Id>) {
    |items| > 0 && |selected| == |items|
  }

  /** The header checkbox: checked when the page is non-empty and every item on it is selected. */
  predicate AllSelected(items: seq<ContentItem>, selected: set<Id>) {
    |items| > 0 && forall i :: 0 <= i < |items| ==> items[i].id in selected
  }

  /**
   * The selection survives a page change, so one id picked on the first page
   * leaves the header checked on a next page of one unselected item.
   */
  lemma AllSelectedAsWrittenCounterexample()
    ensures var page := [ContentItem("b", "Second", None, "draft", None, None)];
      AllSelectedAsWritten(page, {"a"}) && !AllSelected(page, {"a"})
  {
    var page := [ContentItem("b", "Second", None, "draft", None, None)];
    assert page[0].id !in {"a"};
  }

  /** The header is checked exactly when the page ids are all selected. */
  lemma AllSelectedIff(items: seq<ContentItem>, selected: set<Id>)
    ensures AllSelected(items, selected) <==> items != [] && ItemIds(items) <= selected
  {
  }

  /** A subset as large as its superset is the whole of it. */
  lemma SubsetSameSize(a: set<Id>, b: set<Id>)
    requires a <= b && |a| == |b|
    ensures a == b
  {
    var rest := b - a;
    assert b == a + rest && a * rest == {};
    assert |rest| == 0;
    assert rest == {};
  }

  /** When every selected id is on the page (ids unique), the size test agrees with the corrected one. */
  lemma AllSelectedAgreesOnPage(items: seq<ContentItem>, selected: set<Id>)
    ensures UniqueIds(items) && selected <= ItemIds(items)
            ==> (AllSelectedAsWritten(items, selected) <==> AllSelected(items, selected))
  {
    if UniqueIds(items) && selected <= ItemIds(items) {
      ItemIdsCount(items);
      if AllSelectedAsWritten(items, selected) {
        SubsetSameSize(selected, ItemIds(items));
      }
      if AllSelected(items, selected) {
        AllSelectedIff(items, selected);
        assert selected == ItemIds(items);
      }
    }
  }

  /** The view state of the list: page, selection, pending delete, and the last page the query delivered. */
  class ListState {
    var page: nat
    var selected: set<Id>
    var deleteId: Option<Id>
    var data: Option<PageData>

    constructor ()
      ensures page == 0 && selected == {} && deleteId == None && data == None
    {
      page, selected, deleteId, data := 0, {}, None, None;
    }

    /** `data?.items ?? []` */
    function Items(): seq<ContentItem>
      reads this
    {
      if data.Some? then data.value.items else []
    }

    /** `data?.total ?? 0` */
    function Total(): int
      reads this
    {
      if data.Some? then data.value.total else 0
    }

    /** The `offset` the list query asks for. */
    function Offset(): nat
      reads this
    {
      page * PageSize
    }

    predicate PreviousDisabled()
      reads this
    {
      page == 0
    }

    /** "Next" is enabled only while the total says more rows lie beyond this full page. */
    predicate NextDisabled()
      reads this
      ensures !NextDisabled() ==> Offset() + PageSize < Total()
    {
      |Items()| < PageSize || (page + 1) * PageSize >= Total()
    }

    /**
     * The header checkbox as the view computes it, by comparing sizes; while
     * the selection lies within a page of distinct ids it is checked exactly
     * when every item on the page is selected.
     */
    predicate HeaderChecked()
      reads this
      ensures UniqueIds(Items()) && selected <= ItemIds(Items())
              ==> (HeaderChecked() <==> AllSelected(Items(), selected))
    {
      AllSelectedAgreesOnPage(Items(), selected);
      AllSelectedAsWritten(Items(), selected)
    }

    /** The query delivers a page. */
    method Loaded(d: PageData)
      modifies this
      ensures data == Some(d)
      ensures page == old(page) && selected == old(selected) && deleteId == old(deleteId)
    {
      data := Some(d);
    }

    /** A row or card checkbox: add the id when checked, remove it when unchecked. */
    method Toggle(id: Id, checked: bool)
      modifies this
      ensures selected == if checked then old(selected) + {id} else old(selected) - {id}
      ensures page == old(page) && deleteId == old(deleteId) && data == old(data)
    {
      var next := selected;
      if checked {
        next := next + {id};
      } else {
        next := next - {id};
      }
      selected := next;
    }

    /** `handleSelectAll`: the page's ids, or none; nothing while no page has loaded. */
    method SelectAll(checked: bool)
      modifies this
      ensures old(data).None? ==> selected == old(selected)
      ensures old(data).Some? ==> selected == if checked then ItemIds(Items()) else {}
      ensures old(data).Some? ==> (HeaderChecked() <==> checked && Items() != [] && UniqueIds(Items()))
      ensures page == old(page) && deleteId == old(deleteId) && data == old(data)
    {
      if data.None? {
        return;
      }
      selected := if checked then ItemIds(data.value.items) else {};
      if checked && !UniqueIds(data.value.items) {
        ItemIdsShrink(data.value.items);
      }
      if checked && UniqueIds(data.value.items) {
        ItemIdsCount(data.value.items);
      }
    }

    /** The "Clear" button, and a bulk status or assignment change that succeeded. */
    method ClearSelection()
      modifies this
      ensures selected == {}
      ensures page == old(page) && deleteId == old(deleteId) && data == old(data)
    {
      selected := {};
    }

    /** A delete button opens the dialog for that item. */
    method RequestDelete(id: Id)
      modifies this
      ensures deleteId == Some(id)
      ensures page == old(page) && selected == old(selected) && data == old(data)
    {
      deleteId := Some(id);
    }

    /** The dialog closes without deleting. */
    method DismissDelete()
      modifies this
      ensures deleteId == None
      ensures page == old(page) && selected == old(selected) && data == old(data)
    {
      deleteId := None;
    }

    /** The delete of `id` succeeded: the dialog closes and the id leaves the selection. */
    method DeleteSucceeded(id: Id)
      modifies this
      ensures deleteId == None && selected == old(selected) - {id}
      ensures page == old(page) && data == old(data)
    {
      deleteId := None;
      var next := selected;
      next := next - {id};
      selected := next;
    }

    /** "Previous": one page back, never below the first. */
    method PreviousPage()
      modifies this
      ensures page == if old(page) == 0 then 0 else old(page) - 1
      ensures Offset() == if old(Offset()) < PageSize then 0 else old(Offset()) - PageSize
      ensures selected == old(selected) && deleteId == old(deleteId) && data == old(data)
    {
      page := if page - 1 < 0 then 0 else page - 1;
    }

    /** "Next", which is only enabled while more rows lie beyond this page: the next offset is below the total. */
    method NextPage()
      requires !NextDisabled()
      modifies this
      ensures page == old(page) + 1 && Offset() == old(Offset()) + PageSize
      ensures Offset() < Total()
      ensures selected == old(selected) && deleteId == old(deleteId) && data == old(data)
    {
      page := page + 1;
    }
  }

  /**
   * For the corrected test: checking every item on a non-empty page checks
   * the header, and unchecking any one item unchecks it, whatever else is
   * selected.
   */
  lemma SelectAllChecksHeader(items: seq<ContentItem>, selected: set<Id>, i: nat)
    requires i < |items|
    ensures AllSelected(items, ItemIds(items))
    ensures !AllSelected(items, selected - {items[i].id})
  {
  }

  /**
   * For the size test the view uses, on a page of distinct ids: selecting
   * every item checks the header, and unchecking one item unchecks it while
   * the selection holds no id from another page.
   */
  lemma SelectAllChecksHeaderAsWritten(items: seq<ContentItem>, selected: set<Id>, i: nat)
    requires i < |items| && UniqueIds(items)
    ensures AllSelectedAsWritten(items, ItemIds(items))
    ensures selected <= ItemIds(items) ==> !AllSelectedAsWritten(items, selected - {items[i].id})
  {
    ItemIdsCount(items);
    var rest := selected - {items[i].id};
    if selected <= ItemIds(items) {
      assert rest <= ItemIds(items) - {items[i].id};
      assert |ItemIds(items) - {items[i].id}| == |items| - 1;
      SubsetNoLarger(rest, ItemIds(items) - {items[i].id});
    }
  }

  /** A subset is no larger than its superset. */
  lemma SubsetNoLarger(a: set<Id>, b: set<Id>)
    requires a <= b
    ensures |a| <= |b|
  {
    assert b == a + (b - a) && a * (b - a) == {};
  }

  /** With a repeated id the page has more items than ids. */
  lemma {:induction false} ItemIdsShrink(items: seq<ContentItem>)
    requires !UniqueIds(items)
    ensures |ItemIds(items)| < |items|
  {
    var init := items[..|items| - 1];
    assert ItemIds(items) == ItemIds(init) + {items[|items| - 1].id};
    if UniqueIds(init) {
      ItemIdsCount(init);
      RepeatIsLast(items);
    } else {
      ItemIdsShrink(init);
    }
  }

  /** When the items before the last are distinct, a repeated id is the last item's. */
  lemma RepeatIsLast(items: seq<ContentItem>)
    requires !UniqueIds(items) && UniqueIds(items[..|items| - 1])
    ensures items[|items| - 1].id in ItemIds(items[..|items| - 1])
  {
    var init := items[..|items| - 1];
    var a, b :| 0 <= a < b < |items| && items[a].id == items[b].id;
    assert init[a] == items[a];
    assert b == |items| - 1 by {
      assert forall k :: 0 <= k < |init| ==> init[k] == items[k];
    }
  }
}
