/** The two views computed from the ledger: spending per category, without
    the receipt's summary lines, with its grand total (lines 122-145), and
    spending per calendar day (lines 108-110). */
module Summary {
  import opened Wrappers
  import opened Text
  import opened Records
  import opened Grouping
  import opened Ledger

  /** The fixed list of labels of non-item receipt lines: net and grand
      totals, payment, wallet, stamp and promotion lines, service fees. */
  const Keywords: seq<string> := [
    "ยอดสุทธิ", "ยอดรวม", "Total", "ชำระเงิน", "ทรูวอลเล็ท", "รวมทั้งสิ้น",
    "ตราปั๊มจังหวัด", "ภารกิจช้อปครบ", "รับเงินภารกิจช้อปหน้าร้าน", "สิทธิ์แลกซื้อสุดคุ้มAMB", "บริการ"
  ]

  /** The characters that are not literal in a regular expression. */
  const RegexMeta: set<char> := {'.', '^', '$', '*', '+', '?', '{', '}', '[', ']', '\\', '|', '(', ')'}

  /** The keywords are plain text, so the regular expression `'|'.join(Keywords)`
      that `str.contains` receives matches exactly where one keyword occurs. */
  lemma KeywordsAreLiteral()
    ensures |Keywords| == 11
    ensures forall i, j :: 0 <= i < |Keywords| && 0 <= j < |Keywords[i]| ==> Keywords[i][j] !in RegexMeta
  {
    PlainLow();
    PlainHigh();
    forall i, j | 0 <= i < |Keywords| && 0 <= j < |Keywords[i]|
      ensures Keywords[i][j] !in RegexMeta
    {
      PlainNotMeta(Keywords[i][j]);
    }
  }

  /** A character outside ASCII, such as a Thai letter, or an ASCII letter. */
  predicate PlainChar(c: char) {
    c >= '\U{80}' || 'A' <= c <= 'Z' || 'a' <= c <= 'z'
  }

  lemma PlainNotMeta(c: char)
    requires PlainChar(c)
    ensures c !in RegexMeta
  {
  }

  lemma PlainLow()
    ensures forall i, j :: 0 <= i < 6 && 0 <= j < |Keywords[i]| ==> PlainChar(Keywords[i][j])
  {
  }

  lemma PlainHigh()
    ensures forall i, j :: 6 <= i < 11 && 0 <= j < |Keywords[i]| ==> PlainChar(Keywords[i][j])
  {
  }

  /** The search of line 131: the alternation of the keywords matches
      `item` exactly when one keyword starts at some index of it. */
  function MentionsKeyword(item: string): (b: bool)
    ensures b <==> exists k, j :: 0 <= k < |Keywords| && OccursAt(item, Keywords[k], j)
  {
    exists k :: 0 <= k < |Keywords| && Contains(item, Keywords[k])
  }

  /** The mask of line 131: the Item holds one of the keywords, with
      case-sensitive matching. A null Item counts as no match (`na=False`). */
  predicate Excluded(row: LedgerRow): (b: bool)
    ensures row.Item.None? ==> !b
  {
    row.Item.Some? && MentionsKeyword(row.Item.value)
  }

  /** `df[~mask]`: the rows that are not summary lines, in ledger order. */
  function ItemsOnly(rows: seq<LedgerRow>): (r: seq<LedgerRow>)
    ensures |r| <= |rows|
    ensures forall x :: x in r <==> x in rows && !Excluded(x)
  {
    if |rows| == 0 then []
    else
      var init, x := rows[..|rows| - 1], rows[|rows| - 1];
      assert rows == init + [x];
      ItemsOnly(init) + (if Excluded(x) then [] else [x])
  }

  lemma ItemsOnlySnoc(rows: seq<LedgerRow>, x: LedgerRow)
    ensures ItemsOnly(rows + [x]) == ItemsOnly(rows) + (if Excluded(x) then [] else [x])
  {
    assert (rows + [x])[..|rows|] == rows;
  }

  /** `pd.to_numeric(Price, errors='coerce').fillna(0)`. A number or a null
      counts as `sum()` counts it on the raw column; only a text cell goes
      through `toNumeric`, and one that does not parse counts as 0. */
  function CoercePrice(p: Option<Scalar>, toNumeric: string -> Option<int>): (r: int)
    ensures p.None? ==> r == 0
    ensures p.Some? && p.value.Number? ==> r == p.value.minor
    ensures p.Some? && p.value.Text? && toNumeric(p.value.text).None? ==> r == 0
    ensures p.Some? && p.value.Text? && toNumeric(p.value.text).Some? ==> r == toNumeric(p.value.text).value
  {
    match p
    case None => 0
    case Some(Number(n)) => n
    case Some(Text(t)) => toNumeric(t).GetOr(0)
  }

  /** The (Category, coerced Price) column pair that line 134 groups. */
  function CategoryEntries(rows: seq<LedgerRow>, toNumeric: string -> Option<int>)
    : (es: seq<Entry<string>>)
    ensures |es| == |rows|
    ensures forall i :: 0 <= i < |rows| ==> es[i].key == rows[i].Category
    ensures forall i :: 0 <= i < |rows| && rows[i].Price.None? ==> es[i].amount == 0
    ensures forall i :: 0 <= i < |rows| && rows[i].Price.Some? && rows[i].Price.value.Number? ==>
              es[i].amount == rows[i].Price.value.minor
    ensures forall i :: 0 <= i < |rows| && rows[i].Price.Some? && rows[i].Price.value.Text? ==>
              es[i].amount == toNumeric(rows[i].Price.value.text).GetOr(0)
  {
    seq(|rows|, i requires 0 <= i < |rows| =>
      Entry(rows[i].Category, CoercePrice(rows[i].Price, toNumeric)))
  }

  /** `category_summary` (line 134). A category appears exactly when some
      kept row has it, and its value is CategorySpend. Excluded rows and
      rows with a null category contribute to no bucket. */
  function CategorySummary(rows: seq<LedgerRow>, toNumeric: string -> Option<int>)
    : (m: map<string, int>)
    ensures forall c :: c in m <==>
              exists i :: 0 <= i < |rows| && !Excluded(rows[i]) && rows[i].Category == Some(c)
    ensures forall c :: c in m ==> m[c] == CategorySpend(rows, toNumeric, c)
  {
    var m := GroupBy(CategoryEntries(ItemsOnly(rows), toNumeric));
    assert forall c :: (c in m <==>
              exists i :: 0 <= i < |rows| && !Excluded(rows[i]) && rows[i].Category == Some(c))
            && (c in m ==> m[c] == CategorySpend(rows, toNumeric, c)) by {
      forall c
        ensures c in m <==>
                  exists i :: 0 <= i < |rows| && !Excluded(rows[i]) && rows[i].Category == Some(c)
        ensures c in m ==> m[c] == CategorySpend(rows, toNumeric, c)
      {
        CategoryGroups(rows, toNumeric, c);
      }
    }
    m
  }

  /** `category_summary["Price"].sum()` (line 145): the values of the
      category view added up, which is the sum of the coerced prices of the
      kept rows that have a category. */
  function TotalSpent(rows: seq<LedgerRow>, toNumeric: string -> Option<int>): (r: int)
    ensures r == SumValues(CategorySummary(rows, toNumeric))
    ensures r == ItemsSpend(rows, toNumeric)
  {
    var es := CategoryEntries(ItemsOnly(rows), toNumeric);
    GroupByTotal(es);
    SumOfGroups(es);
    KeptKeyedTotal(rows, toNumeric);
    SumGroups(es, Keys(es))
  }

  /** Reference: the coerced prices of the kept rows of category `c`. */
  function CategorySpend(rows: seq<LedgerRow>, toNumeric: string -> Option<int>, c: string): int {
    if |rows| == 0 then 0
    else
      var x := rows[|rows| - 1];
      CategorySpend(rows[..|rows| - 1], toNumeric, c)
      + (if !Excluded(x) && x.Category == Some(c) then CoercePrice(x.Price, toNumeric) else 0)
  }

  /** Reference: the coerced prices of the kept rows that have a category. */
  function ItemsSpend(rows: seq<LedgerRow>, toNumeric: string -> Option<int>): int {
    if |rows| == 0 then 0
    else
      var x := rows[|rows| - 1];
      ItemsSpend(rows[..|rows| - 1], toNumeric)
      + (if !Excluded(x) && x.Category.Some? then CoercePrice(x.Price, toNumeric) else 0)
  }

  lemma CategoryEntriesSnoc(rows: seq<LedgerRow>, x: LedgerRow, toNumeric: string -> Option<int>)
    ensures CategoryEntries(rows + [x], toNumeric)
            == CategoryEntries(rows, toNumeric) + [Entry(x.Category, CoercePrice(x.Price, toNumeric))]
  {
  }

  /** One step of the kept-row entries, for a row appended at the end. */
  lemma KeptEntriesSnoc(rows: seq<LedgerRow>, x: LedgerRow, toNumeric: string -> Option<int>)
    ensures CategoryEntries(ItemsOnly(rows + [x]), toNumeric)
            == CategoryEntries(ItemsOnly(rows), toNumeric)
               + (if Excluded(x) then [] else [Entry(x.Category, CoercePrice(x.Price, toNumeric))])
  {
    ItemsOnlySnoc(rows, x);
    if !Excluded(x) {
      CategoryEntriesSnoc(ItemsOnly(rows), x, toNumeric);
    }
  }

  /** Each category's value is the sum of the coerced prices of the kept
      rows with exactly that category. */
  lemma {:induction false} CategoryValue(rows: seq<LedgerRow>, toNumeric: string -> Option<int>, c: string)
    ensures GroupTotal(CategoryEntries(ItemsOnly(rows), toNumeric), c) == CategorySpend(rows, toNumeric, c)
  {
    if |rows| > 0 {
      var init, x := rows[..|rows| - 1], rows[|rows| - 1];
      assert rows == init + [x];
      var es := CategoryEntries(ItemsOnly(init), toNumeric);
      KeptEntriesSnoc(init, x, toNumeric);
      if !Excluded(x) {
        GroupTotalSnoc(es, Entry(x.Category, CoercePrice(x.Price, toNumeric)), c);
      } else {
        assert es + [] == es;
      }
      CategoryValue(init, toNumeric, c);
    }
  }

  /** The kept-row entries with a key add up to ItemsSpend. */
  lemma {:induction false} KeptKeyedTotal(rows: seq<LedgerRow>, toNumeric: string -> Option<int>)
    ensures KeyedTotal(CategoryEntries(ItemsOnly(rows), toNumeric)) == ItemsSpend(rows, toNumeric)
  {
    if |rows| > 0 {
      var init, x := rows[..|rows| - 1], rows[|rows| - 1];
      assert rows == init + [x];
      var es := CategoryEntries(ItemsOnly(init), toNumeric);
      KeptEntriesSnoc(init, x, toNumeric);
      if !Excluded(x) {
        KeyedTotalSnoc(es, Entry(x.Category, CoercePrice(x.Price, toNumeric)));
      } else {
        assert es + [] == es;
      }
      KeptKeyedTotal(init, toNumeric);
    }
  }

  /** Some kept row has category `c`. */
  predicate KeptCategory(rows: seq<LedgerRow>, c: string) {
    exists i :: 0 <= i < |rows| && !Excluded(rows[i]) && rows[i].Category == Some(c)
  }

  lemma KeptCategorySnoc(init: seq<LedgerRow>, x: LedgerRow, c: string)
    ensures KeptCategory(init + [x], c) <==> KeptCategory(init, c) || (!Excluded(x) && x.Category == Some(c))
  {
    var s := init + [x];
    if KeptCategory(s, c) {
      var i :| 0 <= i < |s| && !Excluded(s[i]) && s[i].Category == Some(c);
      if i < |init| {
        assert init[i] == s[i];
      }
    }
    if KeptCategory(init, c) {
      var i :| 0 <= i < |init| && !Excluded(init[i]) && init[i].Category == Some(c);
      assert s[i] == init[i];
    }
    assert s[|init|] == x;
  }

  /** The kept-row entries carry category `c` exactly when a kept row has it. */
  lemma {:induction false} KeptKeys(rows: seq<LedgerRow>, toNumeric: string -> Option<int>, c: string)
    ensures HasKey(CategoryEntries(ItemsOnly(rows), toNumeric), c) <==> KeptCategory(rows, c)
  {
    if |rows| > 0 {
      var init, x := rows[..|rows| - 1], rows[|rows| - 1];
      assert rows == init + [x];
      var es := CategoryEntries(ItemsOnly(init), toNumeric);
      KeptEntriesSnoc(init, x, toNumeric);
      if !Excluded(x) {
        HasKeySnoc(es, Entry(x.Category, CoercePrice(x.Price, toNumeric)), c);
      } else {
        assert es + [] == es;
      }
      KeptKeys(init, toNumeric, c);
      KeptCategorySnoc(init, x, c);
    }
  }

  /** The groups of the kept rows' entries, one category at a time. */
  lemma CategoryGroups(rows: seq<LedgerRow>, toNumeric: string -> Option<int>, c: string)
    ensures var m := GroupBy(CategoryEntries(ItemsOnly(rows), toNumeric));
            && (c in m <==> KeptCategory(rows, c))
            && (c in m ==> m[c] == CategorySpend(rows, toNumeric, c))
  {
    var es := CategoryEntries(ItemsOnly(rows), toNumeric);
    KeptKeys(rows, toNumeric, c);
    if KeptCategory(rows, c) {
      GroupByCovers(es, c);
    }
    CategoryValue(rows, toNumeric, c);
  }

  /** `.dt.date` (line 109): the calendar date of a row's timestamp, with
      the time of day dropped; None for a NaT timestamp. */
  function DateOf(row: LedgerRow): (d: Option<Date>)
    ensures d.None? <==> row.Timestamp.None?
    ensures d.Some? ==> d.value == row.Timestamp.value.date
  {
    if row.Timestamp.Some? then Some(row.Timestamp.value.date) else None
  }

  /** Line 110 sums the raw Price column. pandas adds numbers and skips
      nulls; a text cell in a dated row makes the sum fail. */
  predicate NumericWhenDated(rows: seq<LedgerRow>) {
    forall i :: 0 <= i < |rows| && rows[i].Timestamp.Some? && rows[i].Price.Some?
                ==> rows[i].Price.value.Number?
  }

  /** A Price cell as `sum()` counts it: a null adds nothing. */
  function SkipNull(p: Option<Scalar>): int {
    if p.Some? && p.value.Number? then p.value.minor else 0
  }

  /** The (Date, Price) column pair that line 110 groups. A NaT row has no
      date; a numeric price counts as it is and a null as 0. A text price
      counts as 0 here, which DailySpend never relies on in a dated row. */
  function DailyEntries(rows: seq<LedgerRow>): (es: seq<Entry<Date>>)
    ensures |es| == |rows|
    ensures forall i :: 0 <= i < |rows| ==> (es[i].key.None? <==> rows[i].Timestamp.None?)
    ensures forall i :: 0 <= i < |rows| && rows[i].Timestamp.Some? ==>
              es[i].key == Some(rows[i].Timestamp.value.date)
    ensures forall i :: 0 <= i < |rows| && rows[i].Price.Some? && rows[i].Price.value.Number? ==>
              es[i].amount == rows[i].Price.value.minor
    ensures forall i :: 0 <= i < |rows| && rows[i].Price.None? ==> es[i].amount == 0
  {
    seq(|rows|, i requires 0 <= i < |rows| => Entry(DateOf(rows[i]), SkipNull(rows[i].Price)))
  }

  /** `daily_spend` (line 110); None where pandas cannot add the prices. */
  function DailySpend(rows: seq<LedgerRow>): (r: Option<map<Date, int>>)
    ensures r.Some? <==> NumericWhenDated(rows)
  {
    if NumericWhenDated(rows) then Some(GroupBy(DailyEntries(rows))) else None
  }

  /** Reference: the prices of the rows that fall on date `d`. */
  function DaySpend(rows: seq<LedgerRow>, d: Date): int {
    if |rows| == 0 then 0
    else
      var x := rows[|rows| - 1];
      DaySpend(rows[..|rows| - 1], d) + (if DateOf(x) == Some(d) then SkipNull(x.Price) else 0)
  }

  /** Reference: the prices of the rows whose timestamp parsed. */
  function DatedSpend(rows: seq<LedgerRow>): int {
    if |rows| == 0 then 0
    else
      var x := rows[|rows| - 1];
      DatedSpend(rows[..|rows| - 1]) + (if x.Timestamp.Some? then SkipNull(x.Price) else 0)
  }

  lemma DailyEntriesSnoc(rows: seq<LedgerRow>, x: LedgerRow)
    ensures DailyEntries(rows + [x]) == DailyEntries(rows) + [Entry(DateOf(x), SkipNull(x.Price))]
  {
  }

  lemma {:induction false} DayValue(rows: seq<LedgerRow>, d: Date)
    ensures GroupTotal(DailyEntries(rows), d) == DaySpend(rows, d)
  {
    if |rows| > 0 {
      var init, x := rows[..|rows| - 1], rows[|rows| - 1];
      assert rows == init + [x];
      DailyEntriesSnoc(init, x);
      GroupTotalSnoc(DailyEntries(init), Entry(DateOf(x), SkipNull(x.Price)), d);
      DayValue(init, d);
    }
  }

  lemma {:induction false} DatedKeyedTotal(rows: seq<LedgerRow>)
    ensures KeyedTotal(DailyEntries(rows)) == DatedSpend(rows)
  {
    if |rows| > 0 {
      var init, x := rows[..|rows| - 1], rows[|rows| - 1];
      assert rows == init + [x];
      DailyEntriesSnoc(init, x);
      KeyedTotalSnoc(DailyEntries(init), Entry(DateOf(x), SkipNull(x.Price)));
      DatedKeyedTotal(init);
    }
  }

  /** The time series: a date appears exactly when some row's timestamp
      falls on it; its value is the sum of that day's prices. NaT rows are
      in no bucket. */
  lemma DailySpendValues(rows: seq<LedgerRow>, d: Date)
    requires NumericWhenDated(rows)
    ensures d in DailySpend(rows).value <==>
              exists i :: 0 <= i < |rows| && DateOf(rows[i]) == Some(d)
    ensures d in DailySpend(rows).value ==> DailySpend(rows).value[d] == DaySpend(rows, d)
  {
    var es := DailyEntries(rows);
    if exists i :: 0 <= i < |rows| && DateOf(rows[i]) == Some(d) {
      var i :| 0 <= i < |rows| && DateOf(rows[i]) == Some(d);
      assert es[i].key == Some(d);
      GroupByCovers(es, d);
    }
    DayValue(rows, d);
  }

  /** The values of the time series add up to the prices of all rows with
      a parsed timestamp: no row is in two buckets and none with a date is
      lost. */
  lemma DailySpendTotal(rows: seq<LedgerRow>)
    requires NumericWhenDated(rows)
    ensures SumValues(DailySpend(rows).value) == DatedSpend(rows)
  {
    GroupByTotal(DailyEntries(rows));
    DatedKeyedTotal(rows);
  }

  /** What one run of the script computes from the ledger at lines 104-146.
      Nothing is computed while the ledger is empty. When line 110 raises,
      the run ends there, and neither the category view nor the total is
      computed. Otherwise the run computes the daily series, the category
      view and the grand total. */
  datatype Views =
    | Hidden
    | Crashed
    | Shown(daily: map<Date, int>, categories: map<string, int>, total: int)

  /** Lines 104-146. The run draws the views exactly when the ledger is not
      empty and every dated row has a numeric or null price. A drawn series
      has one bucket per date of a row, each holding that day's spend. A
      drawn category view holds each kept category's spend. The total is
      the sum of the category values, which is the spend of the kept rows
      that have a category. */
  function Dashboard(rows: seq<LedgerRow>, toNumeric: string -> Option<int>): (v: Views)
    ensures v.Hidden? <==> |rows| == 0
    ensures v.Crashed? <==> |rows| > 0 && !NumericWhenDated(rows)
    ensures v.Shown? ==>
              && (forall d :: d in v.daily <==> exists i :: 0 <= i < |rows| && DateOf(rows[i]) == Some(d))
              && (forall d :: d in v.daily ==> v.daily[d] == DaySpend(rows, d))
              && (forall c :: c in v.categories <==>
                    exists i :: 0 <= i < |rows| && !Excluded(rows[i]) && rows[i].Category == Some(c))
              && (forall c :: c in v.categories ==> v.categories[c] == CategorySpend(rows, toNumeric, c))
              && v.total == SumValues(v.categories) && v.total == ItemsSpend(rows, toNumeric)
  {
    if |rows| == 0 then Hidden
    else if !NumericWhenDated(rows) then Crashed
    else
      var daily := DailySpend(rows).value;
      assert forall d :: (d in daily <==> exists i :: 0 <= i < |rows| && DateOf(rows[i]) == Some(d))
                         && (d in daily ==> daily[d] == DaySpend(rows, d)) by {
        forall d
          ensures d in daily <==> exists i :: 0 <= i < |rows| && DateOf(rows[i]) == Some(d)
          ensures d in daily ==> daily[d] == DaySpend(rows, d)
        {
          DailySpendValues(rows, d);
        }
      }
      Shown(daily, CategorySummary(rows, toNumeric), TotalSpent(rows, toNumeric))
  }

  /** Every row is a dated, categorised item line with a numeric or null
      price: the rows both views count in full. */
  predicate PlainItems(rows: seq<LedgerRow>) {
    forall i :: 0 <= i < |rows| ==>
      && rows[i].Timestamp.Some? && rows[i].Category.Some? && !Excluded(rows[i])
      && !(rows[i].Price.Some? && rows[i].Price.value.Text?)
  }

  lemma {:induction false} PlainSpendAgrees(rows: seq<LedgerRow>, toNumeric: string -> Option<int>)
    requires PlainItems(rows)
    ensures ItemsSpend(rows, toNumeric) == DatedSpend(rows)
  {
    if |rows| > 0 {
      var init := rows[..|rows| - 1];
      assert PlainItems(init) by {
        forall i | 0 <= i < |init| ensures init[i] == rows[i] { }
      }
      PlainSpendAgrees(init, toNumeric);
    }
  }

  /** The two charts agree on plain item rows: the grand total of the
      category view equals the sum of the daily series. */
  lemma ViewsAgree(rows: seq<LedgerRow>, toNumeric: string -> Option<int>)
    requires PlainItems(rows)
    ensures NumericWhenDated(rows)
    ensures TotalSpent(rows, toNumeric) == SumValues(DailySpend(rows).value)
  {
    PlainSpendAgrees(rows, toNumeric);
    DailySpendTotal(rows);
  }

  /** A summary line added to the ledger changes neither the category view
      nor the grand total. */
  lemma ExcludedLineIgnored(rows: seq<LedgerRow>, x: LedgerRow, toNumeric: string -> Option<int>)
    requires Excluded(x)
    ensures CategorySummary(rows + [x], toNumeric) == CategorySummary(rows, toNumeric)
    ensures TotalSpent(rows + [x], toNumeric) == TotalSpent(rows, toNumeric)
  {
    ItemsOnlySnoc(rows, x);
    assert ItemsOnly(rows + [x]) == ItemsOnly(rows) + [];
    assert ItemsOnly(rows) + [] == ItemsOnly(rows);
  }

  /** A ledger holding one kept item with a category: the category view
      has that category alone, holding the item's coerced price, which is
      also the total. */
  lemma OneItem(item: LedgerRow, toNumeric: string -> Option<int>)
    requires !Excluded(item) && item.Category.Some?
    ensures CategorySummary([item], toNumeric) == map[item.Category.value := CoercePrice(item.Price, toNumeric)]
    ensures TotalSpent([item], toNumeric) == CoercePrice(item.Price, toNumeric)
  {
    OneItemSpend(item, toNumeric);
    var m := CategorySummary([item], toNumeric);
    assert m.Keys == {item.Category.value} by {
      OneItemKeys(item, toNumeric);
    }
  }

  lemma OneItemSpend(item: LedgerRow, toNumeric: string -> Option<int>)
    requires !Excluded(item) && item.Category.Some?
    ensures CategorySpend([item], toNumeric, item.Category.value) == CoercePrice(item.Price, toNumeric)
    ensures ItemsSpend([item], toNumeric) == CoercePrice(item.Price, toNumeric)
  {
    assert [item][..0] == [];
  }

  lemma OneItemKeys(item: LedgerRow, toNumeric: string -> Option<int>)
    requires !Excluded(item) && item.Category.Some?
    ensures forall c :: c in CategorySummary([item], toNumeric) <==> c == item.Category.value
  {
    assert [item][0] == item;
  }

  /** An item followed by the receipt's grand-total line: the total line is
      left out of the category view, and the total is the item's price
      alone (40 baht, in satang). */
  lemma SummaryLineScenario(item: LedgerRow, totalLine: LedgerRow, toNumeric: string -> Option<int>)
    requires item == Row(None, Some("Chips"), Some("Snacks"), Some(Number(4000)), None)
    requires totalLine == Row(None, Some("ยอดรวม"), Some("Summary"), Some(Number(50000)), None)
    ensures CategorySummary([item, totalLine], toNumeric) == map["Snacks" := 4000]
    ensures TotalSpent([item, totalLine], toNumeric) == 4000
  {
    TotalLineExcluded(totalLine);
    ChipsKept(item);
    assert [item, totalLine] == [item] + [totalLine];
    ExcludedLineIgnored([item], totalLine, toNumeric);
    OneItem(item, toNumeric);
  }

  lemma TotalLineExcluded(row: LedgerRow)
    requires row.Item == Some("ยอดรวม")
    ensures Excluded(row)
  {
    assert Contains("ยอดรวม", Keywords[1]);
  }

  lemma ChipsKept(row: LedgerRow)
    requires row.Item == Some("Chips")
    ensures !Excluded(row)
  {
    forall i | 0 <= i < |Keywords|
      ensures !Contains("Chips", Keywords[i])
    {
      NotContainsChar("Chips", Keywords[i], 0);
    }
  }
}
