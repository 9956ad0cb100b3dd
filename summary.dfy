/**
 * The demographic summary page (src/app/summary/page.tsx): turning the three
 * label -> probability maps returned by the analysis service into ordered table
 * rows, a best-guess selection per category that the user can override, the
 * active row with its percentage and radial indicator, and the decision whether
 * to load the estimate from the local cache, report an error or ask the service.
 */
module Summary {
  import opened Wrappers
  import opened JsString

  // ---------------------------------------------------------------------------
  // Data model
  // ---------------------------------------------------------------------------

  /** `Object.entries` of a `Record<string, number>`: key/probability pairs in `Object.entries` order. */
  type Group = seq<(string, real)>

  /** The three category maps of an estimate; a map the decoded JSON lacks is `None`. */
  datatype Demographics = Demographics(race: Option<Group>, age: Option<Group>, gender: Option<Group>)

  datatype GroupKey = Race | Age | Gender

  /** One line of the category table. */
  datatype Row = Row(key: string, display: string, percent: int)

  const RaceDisplayOrder: seq<string> :=
    ["white", "latino hispanic", "southeast asian", "south asian", "black", "east asian", "middle eastern"]

  const AgeDisplayOrder: seq<string> :=
    ["0-2", "3-9", "10-19", "20-29", "30-39", "40-49", "50-59", "60-69", "70+"]

  const GenderDisplayOrder: seq<string> := ["female", "male"]

  const NoImageMessage := "No captured image found."
  const FetchFailedMessage := "Failed to fetch demographics"
  const UnknownErrorMessage := "Something went wrong"

  function GroupOf(d: Demographics, g: GroupKey): Option<Group>
  {
    match g
    case Race => d.race
    case Age => d.age
    case Gender => d.gender
  }

  function CanonicalOrder(g: GroupKey): seq<string>
  {
    match g
    case Race => RaceDisplayOrder
    case Age => AgeDisplayOrder
    case Gender => GenderDisplayOrder
  }

  /** `Object.keys` of a map. */
  function Keys(g: Group): (ks: seq<string>)
    ensures |ks| == |g| && forall i :: 0 <= i < |g| ==> ks[i] == g[i].0
  {
    seq(|g|, i requires 0 <= i < |g| => g[i].0)
  }

  ghost predicate Distinct(s: seq<string>)
  {
    forall i, j :: 0 <= i < j < |s| ==> s[i] != s[j]
  }

  /** A JavaScript object never holds the same key twice. */
  ghost predicate WellFormed(g: Group)
  {
    Distinct(Keys(g))
  }

  /** `group[key]`: `undefined` (`None`) for a key the map does not hold. */
  function Lookup(g: Group, k: string): (v: Option<real>)
    ensures v.Some? <==> k in Keys(g)
    ensures v.Some? ==> (k, v.value) in g
  {
    if g == [] then None
    else if g[0].0 == k then Some(g[0].1)
    else
      assert Keys(g) == [g[0].0] + Keys(g[1..]);
      Lookup(g[1..], k)
  }

  /** In a well-formed map, looking up the key of an entry finds that entry's value. */
  lemma {:induction false} LookupEntry(g: Group, i: int)
    requires WellFormed(g) && 0 <= i < |g|
    ensures Lookup(g, g[i].0) == Some(g[i].1)
  {
    if i > 0 {
      assert Keys(g)[0] != Keys(g)[i];
      assert WellFormed(g[1..]) by {
        forall a, b | 0 <= a < b < |g| - 1 ensures Keys(g[1..])[a] != Keys(g[1..])[b] {
          assert Keys(g)[a + 1] != Keys(g)[b + 1];
        }
      }
      LookupEntry(g[1..], i - 1);
    }
  }

  // ---------------------------------------------------------------------------
  // toPercent (lines 43-46)
  // ---------------------------------------------------------------------------

  /** `Math.round`: the nearest integer, halves rounded up. */
  function Round(x: real): (n: int)
    ensures n as real - 0.5 <= x < n as real + 0.5
  {
    (x + 0.5).Floor
  }

  /**
   * `toPercent`: a missing or zero probability shows as 0; any other as the whole
   * percent nearest to it, halves rounded up.
   */
  function ToPercent(value: Option<real>): (p: int)
    ensures value.None? ==> p == 0
    ensures value.Some? ==> p as real - 0.5 <= value.value * 100.0 < p as real + 0.5
  {
    if value.None? || value.value == 0.0 then 0 else Round(value.value * 100.0)
  }

  /** A probability in [0, 1] shows as a percent in [0, 100]; 1/2 shows as 50 and 1 as 100. */
  lemma ToPercentRange(v: real)
    requires 0.0 <= v <= 1.0
    ensures 0 <= ToPercent(Some(v)) <= 100
    ensures v == 0.5 ==> ToPercent(Some(v)) == 50
    ensures v == 1.0 ==> ToPercent(Some(v)) == 100
  {
  }

  // ---------------------------------------------------------------------------
  // formatLabel (lines 48-53)
  // ---------------------------------------------------------------------------

  /** `w.charAt(0).toUpperCase() + w.slice(1)`. */
  function Capitalize(w: string): string
  {
    if w == [] then [] else [ToUpperCase(w[0])] + w[1..]
  }

  function CapitalizeAll(ws: seq<string>): seq<string>
  {
    seq(|ws|, i requires 0 <= i < |ws| => Capitalize(ws[i]))
  }

  /**
   * `formatLabel`: split on single spaces, capitalise each piece, join with single
   * spaces. The words are kept: splitting the label gives the key's words, each
   * capitalised, so their number is unchanged.
   */
  function FormatLabel(key: string): (text: string)
    ensures SplitOnSpace(text) == CapitalizeAll(SplitOnSpace(key))
  {
    var cs := CapitalizeAll(SplitOnSpace(key));
    CapitalizedWordsSpaceFree(SplitOnSpace(key));
    JoinSplit(cs);
    JoinWithSpace(cs)
  }

  /** Capitalising a space-free word leaves it space-free. */
  lemma CapitalizedWordsSpaceFree(ws: seq<string>)
    requires forall i :: 0 <= i < |ws| ==> ' ' !in ws[i]
    ensures forall i :: 0 <= i < |ws| ==> ' ' !in CapitalizeAll(ws)[i]
  {
    var cs := CapitalizeAll(ws);
    forall i | 0 <= i < |cs| ensures ' ' !in cs[i] {
      assert ' ' !in ws[i];
      if ws[i] != [] {
        assert cs[i] == [ToUpperCase(ws[i][0])] + ws[i][1..];
        assert ws[i] == [ws[i][0]] + ws[i][1..];
      }
    }
  }

  /**
   * Reference definition: walk the string once, upper-casing a character when it
   * starts a word (it is first and `atWordStart` holds, or it follows a space).
   */
  function CapitalizeWordStarts(s: string, atWordStart: bool): string
  {
    if s == [] then []
    else [if atWordStart then ToUpperCase(s[0]) else s[0]] + CapitalizeWordStarts(s[1..], s[0] == ' ')
  }

  lemma {:induction false} CapitalizeWordStartsAt(s: string, b: bool, i: int)
    requires 0 <= i < |s|
    ensures |CapitalizeWordStarts(s, b)| == |s|
    ensures CapitalizeWordStarts(s, b)[i] ==
              if (if i == 0 then b else s[i - 1] == ' ') then ToUpperCase(s[i]) else s[i]
  {
    if i > 0 {
      CapitalizeWordStartsAt(s[1..], s[0] == ' ', i - 1);
    } else if |s| > 1 {
      CapitalizeWordStartsAt(s[1..], s[0] == ' ', 0);
    }
  }

  /** A leading space ends an empty first piece. */
  lemma SplitSpaceHead(s: string)
    requires s != [] && s[0] == ' '
    ensures SplitOnSpace(s) == [""] + SplitOnSpace(s[1..])
  {
  }

  /** Any other leading character joins the first piece of the rest. */
  lemma SplitOtherHead(s: string)
    requires s != [] && s[0] != ' '
    ensures var ws, vs := SplitOnSpace(s), SplitOnSpace(s[1..]);
            ws[0] == [s[0]] + vs[0] && ws[1..] == vs[1..]
  {
  }

  /** Split/capitalise/join with the first piece capitalised or not as `b` says. */
  lemma {:induction false} JoinCapitalized(s: string, b: bool)
    ensures var ws := SplitOnSpace(s);
            JoinWithSpace([if b then Capitalize(ws[0]) else ws[0]] + CapitalizeAll(ws[1..]))
              == CapitalizeWordStarts(s, b)
  {
    var ws := SplitOnSpace(s);
    if s == [] {
    } else if s[0] == ' ' {
      var vs := SplitOnSpace(s[1..]);
      JoinCapitalized(s[1..], true);
      SplitSpaceHead(s);
      assert ws[1..] == vs;
      assert CapitalizeAll(vs) == [Capitalize(vs[0])] + CapitalizeAll(vs[1..]);
      assert ([""] + CapitalizeAll(vs))[1..] == CapitalizeAll(vs);
    } else {
      var vs := SplitOnSpace(s[1..]);
      JoinCapitalized(s[1..], false);
      SplitOtherHead(s);
      var c := if b then ToUpperCase(s[0]) else s[0];
      assert (if b then Capitalize(ws[0]) else ws[0]) == [c] + vs[0];
      JoinConsChar(c, vs[0], CapitalizeAll(vs[1..]));
    }
  }

  /** `formatLabel` agrees with the one-pass reference definition. */
  lemma FormatLabelIsCapitalizeWordStarts(s: string)
    ensures FormatLabel(s) == CapitalizeWordStarts(s, true)
  {
    var ws := SplitOnSpace(s);
    JoinCapitalized(s, true);
    assert CapitalizeAll(ws) == [Capitalize(ws[0])] + CapitalizeAll(ws[1..]);
  }

  /**
   * `formatLabel` keeps the length and changes exactly the characters that start a
   * word (the first one and each one after a space), which it upper-cases.
   */
  lemma FormatLabelAt(s: string)
    ensures |FormatLabel(s)| == |s|
    ensures forall i :: 0 <= i < |s| ==>
              FormatLabel(s)[i] == if i == 0 || s[i - 1] == ' ' then ToUpperCase(s[i]) else s[i]
  {
    FormatLabelIsCapitalizeWordStarts(s);
    if s != [] {
      CapitalizeWordStartsAt(s, true, 0);
    }
    forall i | 0 <= i < |s|
      ensures FormatLabel(s)[i] == if i == 0 || s[i - 1] == ' ' then ToUpperCase(s[i]) else s[i]
    {
      CapitalizeWordStartsAt(s, true, i);
    }
  }

  /** One character of `formatLabel`: upper-cased or kept. */
  lemma FormatLabelCharAt(s: string, i: int)
    requires 0 <= i < |s|
    ensures |FormatLabel(s)| == |s|
    ensures FormatLabel(s)[i] == if i == 0 || s[i - 1] == ' ' then ToUpperCase(s[i]) else s[i]
  {
    FormatLabelAt(s);
  }

  /** Formatting an already formatted label changes nothing. */
  lemma FormatLabelIdempotent(s: string)
    ensures FormatLabel(FormatLabel(s)) == FormatLabel(s)
  {
    var f := FormatLabel(s);
    FormatLabelAt(s);
    FormatLabelAt(f);
    forall i | 0 <= i < |s| ensures FormatLabel(f)[i] == f[i] {
      FormatLabelCharAt(s, i);
      FormatLabelCharAt(f, i);
      ToUpperCaseFacts(s[i]);
      if i > 0 {
        FormatLabelCharAt(s, i - 1);
        ToUpperCaseFacts(s[i - 1]);
      }
    }
  }

  // ---------------------------------------------------------------------------
  // getBestKey (lines 55-62)
  // ---------------------------------------------------------------------------

  /**
   * Among the first `n` entries, entry `j` has a largest value and is the earliest
   * one to have it.
   */
  ghost predicate IsBestWithin(g: Group, n: int, j: int)
  {
    && 0 <= j < n <= |g|
    && (forall i :: 0 <= i < n ==> g[i].1 <= g[j].1)
    && (forall i :: 0 <= i < j ==> g[i].1 < g[j].1)
  }

  ghost predicate IsBest(g: Group, j: int)
  {
    IsBestWithin(g, |g|, j)
  }

  /**
   * The `reduce` of `getBestKey`, as an index: the accumulated entry is replaced only
   * by a later entry whose value is strictly greater.
   */
  function ReduceBest(g: Group, best: nat, i: nat): (j: nat)
    requires best < i <= |g| && IsBestWithin(g, i, best)
    ensures IsBest(g, j)
    decreases |g| - i
  {
    if i == |g| then best
    else ReduceBest(g, if g[i].1 > g[best].1 then i else best, i + 1)
  }

  /**
   * `getBestKey`: "" for a missing or empty map; otherwise the key of an entry with
   * the largest value, the earliest such entry when several tie.
   */
  function GetBestKey(group: Option<Group>): (k: string)
    ensures group.None? || group.value == [] ==> k == ""
    ensures group.Some? && group.value != [] ==>
              exists j :: IsBest(group.value, j) && k == group.value[j].0
  {
    if group.None? || group.value == [] then ""
    else
      var g := group.value;
      g[ReduceBest(g, 0, 1)].0
  }

  /** The earliest maximum is unique, so the contract of `GetBestKey` fixes its result. */
  lemma BestIsUnique(g: Group, j1: int, j2: int)
    requires IsBest(g, j1) && IsBest(g, j2)
    ensures j1 == j2
  {
    assert g[j1].1 <= g[j2].1 && g[j2].1 <= g[j1].1;
  }

  // ---------------------------------------------------------------------------
  // Row builders (lines 169-209)
  // ---------------------------------------------------------------------------

  /** `s.filter(x => other.includes(x) == keep)`. */
  function FilterByMembership(s: seq<string>, other: seq<string>, keep: bool): (r: seq<string>)
    ensures forall x :: x in r <==> x in s && (x in other) == keep
  {
    if s == [] then []
    else (if (s[0] in other) == keep then [s[0]] else []) + FilterByMembership(s[1..], other, keep)
  }

  /** The first position of `x` in `s`. */
  function IndexOf(s: seq<string>, x: string): (i: nat)
    requires x in s
    ensures i < |s| && s[i] == x
    ensures forall k :: 0 <= k < i ==> s[k] != x
  {
    if s[0] == x then 0 else 1 + IndexOf(s[1..], x)
  }

  /**
   * `[...ordered, ...others]`: the canonical labels the map holds, in canonical
   * order, then the map's other keys in map order.
   */
  function DisplayOrder(order: seq<string>, keys: seq<string>): seq<string>
  {
    FilterByMembership(order, keys, true) + FilterByMembership(keys, order, false)
  }

  /** Race and gender rows show `formatLabel(key)`; age rows show the key itself. */
  function LabelFor(g: GroupKey, key: string): (text: string)
    ensures |text| == |key|
    ensures g == Age ==> text == key
    ensures g != Age ==> text == FormatLabel(key)
  {
    FormatLabelAt(key);
    if g == Age then key else FormatLabel(key)
  }

  /** `raceRows` / `ageRows` / `genderRows` for one category map. */
  function BuildRows(g: GroupKey, group: Option<Group>): (rows: seq<Row>)
    ensures group.None? ==> rows == []
    ensures group.Some? ==> forall i :: 0 <= i < |rows| ==>
              && rows[i].key in Keys(group.value)
              && rows[i].display == LabelFor(g, rows[i].key)
              && rows[i].percent == ToPercent(Lookup(group.value, rows[i].key))
  {
    match group
    case None => []
    case Some(entries) =>
      var full := DisplayOrder(CanonicalOrder(g), Keys(entries));
      seq(|full|, i requires 0 <= i < |full| =>
            Row(full[i], LabelFor(g, full[i]), ToPercent(Lookup(entries, full[i]))))
  }

  function RowKeys(rows: seq<Row>): (ks: seq<string>)
    ensures |ks| == |rows| && forall i :: 0 <= i < |rows| ==> ks[i] == rows[i].key
  {
    seq(|rows|, i requires 0 <= i < |rows| => rows[i].key)
  }

  /**
   * Position of a key in the table: canonical labels by their place in the canonical
   * list, every other key after all of them, by its place in the map.
   */
  function DisplayRank(order: seq<string>, keys: seq<string>, k: string): nat
    requires k in order || k in keys
  {
    if k in order then IndexOf(order, k) else |order| + IndexOf(keys, k)
  }

  lemma DistinctTail(s: seq<string>)
    requires Distinct(s) && s != []
    ensures Distinct(s[1..]) && s[0] !in s[1..]
  {
    forall i, j | 0 <= i < j < |s| - 1 ensures s[1..][i] != s[1..][j] {
      assert s[i + 1] != s[j + 1];
    }
  }

  /** An element of the tail of a list without repeats sits one place further in the whole list. */
  lemma IndexOfTail(s: seq<string>, y: string)
    requires Distinct(s) && s != [] && y in s[1..]
    ensures y != s[0] && IndexOf(s, y) == 1 + IndexOf(s[1..], y)
  {
    DistinctTail(s);
  }

  /** Filtering a list without repeats keeps its elements in their relative order. */
  lemma {:induction false} FilterKeepsOrder(s: seq<string>, other: seq<string>, keep: bool)
    requires Distinct(s)
    ensures var r := FilterByMembership(s, other, keep);
            && Distinct(r)
            && forall i, j :: 0 <= i < j < |r| ==> IndexOf(s, r[i]) < IndexOf(s, r[j])
  {
    if s != [] {
      var t := s[1..];
      DistinctTail(s);
      FilterKeepsOrder(t, other, keep);
      var rt := FilterByMembership(t, other, keep);
      var r := FilterByMembership(s, other, keep);
      var head := if (s[0] in other) == keep then [s[0]] else [];
      assert r == head + rt;
      forall i, j | 0 <= i < j < |r| ensures r[i] != r[j] && IndexOf(s, r[i]) < IndexOf(s, r[j]) {
        PrependKeepsOrder(s, head, rt, i, j);
      }
    }
  }

  /**
   * One step of `FilterKeepsOrder`: putting the list's head (or nothing) in front of
   * an ordered filtering of its tail keeps the result ordered.
   */
  lemma PrependKeepsOrder(s: seq<string>, head: seq<string>, rt: seq<string>, i: int, j: int)
    requires Distinct(s) && s != []
    requires head == [] || head == [s[0]]
    requires forall a :: 0 <= a < |rt| ==> rt[a] in s[1..]
    requires Distinct(rt) && forall a, b :: 0 <= a < b < |rt| ==> IndexOf(s[1..], rt[a]) < IndexOf(s[1..], rt[b])
    requires 0 <= i < j < |head + rt|
    ensures (head + rt)[i] != (head + rt)[j] && IndexOf(s, (head + rt)[i]) < IndexOf(s, (head + rt)[j])
  {
    var r := head + rt;
    var y := rt[j - |head|];
    assert r[j] == y;
    IndexOfTail(s, y);
    if i < |head| {
      assert r[i] == s[0];
    } else {
      var x := rt[i - |head|];
      assert r[i] == x;
      IndexOfTail(s, x);
    }
  }

  /** A list without repeats has as many elements as the set of its elements. */
  lemma {:induction false} DistinctCardinality(s: seq<string>)
    requires Distinct(s)
    ensures |set x | x in s| == |s|
  {
    if s != [] {
      DistinctTail(s);
      DistinctCardinality(s[1..]);
      assert (set x | x in s) == {s[0]} + (set x | x in s[1..]);
    }
  }

  /**
   * The display order of a map's keys: every key exactly once, canonical labels first
   * in canonical order, the other keys after them in map order.
   */
  lemma DisplayOrderIsRankedPermutation(order: seq<string>, keys: seq<string>)
    requires Distinct(order) && Distinct(keys)
    ensures var full := DisplayOrder(order, keys);
            && |full| == |keys|
            && Distinct(full)
            && (forall k :: k in full <==> k in keys)
            && forall i, j :: 0 <= i < j < |full| ==>
                 DisplayRank(order, keys, full[i]) < DisplayRank(order, keys, full[j])
  {
    var a := FilterByMembership(order, keys, true);
    var b := FilterByMembership(keys, order, false);
    var full := a + b;
    FilterKeepsOrder(order, keys, true);
    FilterKeepsOrder(keys, order, false);
    forall i, j | 0 <= i < j < |full|
      ensures full[i] != full[j]
      ensures DisplayRank(order, keys, full[i]) < DisplayRank(order, keys, full[j])
    {
      if j < |a| {
        assert full[i] == a[i] && full[j] == a[j];
      } else if i < |a| {
        assert full[i] == a[i] && full[j] == b[j - |a|];
        assert full[i] in order && full[j] !in order;
      } else {
        assert full[i] == b[i - |a|] && full[j] == b[j - |a|];
      }
    }
    DistinctCardinality(full);
    DistinctCardinality(keys);
    assert (set x | x in full) == (set x | x in keys);
  }

  /**
   * The rows of a well-formed map: one row per key, each key once, ordered by
   * `DisplayRank`, each showing its label and the percent of its probability.
   */
  lemma RowsAreDisplayOrdered(g: GroupKey, entries: Group)
    requires WellFormed(entries)
    ensures var rows := BuildRows(g, Some(entries));
            && |rows| == |entries|
            && Distinct(RowKeys(rows))
            && (forall k :: k in RowKeys(rows) <==> k in Keys(entries))
            && (forall i, j :: 0 <= i < j < |rows| ==>
                  DisplayRank(CanonicalOrder(g), Keys(entries), rows[i].key)
                    < DisplayRank(CanonicalOrder(g), Keys(entries), rows[j].key))
            && forall i :: 0 <= i < |rows| ==>
                 exists j :: 0 <= j < |entries| && entries[j].0 == rows[i].key && rows[i].percent == ToPercent(Some(entries[j].1))
  {
    CanonicalOrderDistinct(g);
    RowKeysAreDisplayOrder(g, entries);
    DisplayOrderIsRankedPermutation(CanonicalOrder(g), Keys(entries));
    RowPercentsFromEntries(g, entries, BuildRows(g, Some(entries)));
  }

  /** The keys of the rows are the display order of the map's keys. */
  lemma RowKeysAreDisplayOrder(g: GroupKey, entries: Group)
    ensures RowKeys(BuildRows(g, Some(entries))) == DisplayOrder(CanonicalOrder(g), Keys(entries))
  {
    var rows := BuildRows(g, Some(entries));
    var full := DisplayOrder(CanonicalOrder(g), Keys(entries));
    assert |rows| == |full| && forall i :: 0 <= i < |rows| ==> rows[i].key == full[i];
  }

  /** Every row's percent is `toPercent` of a probability stored with its key. */
  lemma RowPercentsFromEntries(g: GroupKey, entries: Group, rows: seq<Row>)
    requires rows == BuildRows(g, Some(entries))
    ensures forall i :: 0 <= i < |rows| ==>
              exists j :: 0 <= j < |entries| && entries[j].0 == rows[i].key && rows[i].percent == ToPercent(Some(entries[j].1))
  {
    forall i | 0 <= i < |rows|
      ensures exists j :: 0 <= j < |entries| && entries[j].0 == rows[i].key && rows[i].percent == ToPercent(Some(entries[j].1))
    {
      var k := rows[i].key;
      assert k in Keys(entries);
      var v := Lookup(entries, k).value;
      assert (k, v) in entries;
      var j :| 0 <= j < |entries| && entries[j] == (k, v);
    }
  }

  lemma CanonicalOrderDistinct(g: GroupKey)
    ensures Distinct(CanonicalOrder(g))
  {
  }

  // ---------------------------------------------------------------------------
  // Active selection, indicator and labels (lines 211-281)
  // ---------------------------------------------------------------------------

  /** The rows of the table for a category, none before data has arrived. */
  function RowsFor(data: Option<Demographics>, g: GroupKey): (rows: seq<Row>)
    ensures data.None? || GroupOf(data.value, g).None? ==> rows == []
    ensures data.Some? && GroupOf(data.value, g).Some? ==>
              var group := GroupOf(data.value, g).value;
              forall i :: 0 <= i < |rows| ==>
                && rows[i].key in Keys(group)
                && rows[i].display == LabelFor(g, rows[i].key)
                && rows[i].percent == ToPercent(Lookup(group, rows[i].key))
  {
    if data.None? then [] else BuildRows(g, GroupOf(data.value, g))
  }

  /** `bestRaceKey` / `bestAgeKey` / `bestGenderKey`. */
  function BestKeyFor(data: Option<Demographics>, g: GroupKey): (k: string)
    ensures data.None? || GroupOf(data.value, g).None? || GroupOf(data.value, g).value == [] ==> k == ""
    ensures data.Some? && GroupOf(data.value, g).Some? && GroupOf(data.value, g).value != [] ==>
              var group := GroupOf(data.value, g).value;
              exists j :: IsBest(group, j) && k == group[j].0
  {
    if data.None? then "" else GetBestKey(GroupOf(data.value, g))
  }

  /** The stored selection for a category, "" when there is none. */
  function StoredSelection(selected: map<GroupKey, string>, g: GroupKey): string
  {
    if g in selected then selected[g] else ""
  }

  /** `rows.find(row => row.key === k)`. */
  function FindRow(rows: seq<Row>, k: string): (r: Option<Row>)
    ensures r.Some? <==> k in RowKeys(rows)
    ensures r.Some? ==> r.value in rows && r.value.key == k
    ensures r.Some? ==> exists i :: 0 <= i < |rows| && rows[i] == r.value && forall m :: 0 <= m < i ==> rows[m].key != k
  {
    if rows == [] then None
    else if rows[0].key == k then Some(rows[0])
    else
      assert RowKeys(rows) == [rows[0].key] + RowKeys(rows[1..]);
      FindRow(rows[1..], k)
  }

  /**
   * `activeSelectedKey`: the non-empty stored selection of the active category, else
   * its non-empty best key, else the first row's key, else "".
   */
  function ActiveSelectedKey(data: Option<Demographics>, active: GroupKey, selected: map<GroupKey, string>): (k: string)
    ensures StoredSelection(selected, active) != "" ==> k == StoredSelection(selected, active)
    ensures StoredSelection(selected, active) == "" && BestKeyFor(data, active) != "" ==>
              k == BestKeyFor(data, active)
    ensures StoredSelection(selected, active) == "" && BestKeyFor(data, active) == "" ==>
              k == if RowsFor(data, active) != [] then RowsFor(data, active)[0].key else ""
    ensures k != "" ==> k == StoredSelection(selected, active) || k == BestKeyFor(data, active)
                        || k in RowKeys(RowsFor(data, active))
  {
    var stored := StoredSelection(selected, active);
    var best := BestKeyFor(data, active);
    var rows := RowsFor(data, active);
    if stored != "" then stored
    else if best != "" then best
    else if |rows| > 0 then rows[0].key
    else ""
  }

  /**
   * `activeRow`: the row holding the active key, else the first row, else none. So
   * there is an active row exactly when the table has rows, and it is always one of them.
   */
  function ActiveRow(data: Option<Demographics>, active: GroupKey, selected: map<GroupKey, string>): (r: Option<Row>)
    ensures r.Some? <==> RowsFor(data, active) != []
    ensures r.Some? ==> r.value in RowsFor(data, active)
    ensures ActiveSelectedKey(data, active, selected) in RowKeys(RowsFor(data, active)) ==>
              r.Some? && r.value.key == ActiveSelectedKey(data, active, selected)
    ensures RowsFor(data, active) != [] && ActiveSelectedKey(data, active, selected) !in RowKeys(RowsFor(data, active)) ==>
              r == Some(RowsFor(data, active)[0])
  {
    var rows := RowsFor(data, active);
    var found := FindRow(rows, ActiveSelectedKey(data, active, selected));
    if found.Some? then found
    else if |rows| > 0 then Some(rows[0])
    else None
  }

  /** `selectedPercent`: the active row's percent, 0 when there is no row. */
  function SelectedPercent(data: Option<Demographics>, active: GroupKey, selected: map<GroupKey, string>): (p: int)
    ensures RowsFor(data, active) == [] ==> p == 0
    ensures RowsFor(data, active) != [] ==> exists row :: row in RowsFor(data, active) && p == row.percent
    ensures ActiveRow(data, active, selected).Some? ==> p == ActiveRow(data, active, selected).value.percent
  {
    var row := ActiveRow(data, active, selected);
    if row.Some? then row.value.percent else 0
  }

  /**
   * `dashOffset`: the undrawn part of a circle of the given circumference. A
   * non-positive percent leaves the whole trail undrawn; otherwise the drawn arc is
   * proportional to the percent, and 100 draws the full circle.
   */
  function DashOffset(circumference: real, percent: int): (r: real)
    requires circumference > 0.0
    ensures percent <= 0 ==> r == circumference
    ensures percent > 0 ==> circumference - r == circumference * (percent as real) / 100.0
    ensures 0 <= percent <= 100 ==> 0.0 <= r <= circumference
    ensures percent == 100 ==> r == 0.0
  {
    var p := if percent > 0 then percent as real else 0.0;
    assert 0.0 <= p <= 100.0 ==> 0.0 <= circumference * (1.0 - p / 100.0) <= circumference by {
      if 0.0 <= p <= 100.0 {
        assert 0.0 <= 1.0 - p / 100.0 <= 1.0;
        MultiplyWithinUnit(circumference, 1.0 - p / 100.0);
      }
    }
    circumference * (1.0 - p / 100.0)
  }

  lemma MultiplyWithinUnit(c: real, f: real)
    requires c > 0.0 && 0.0 <= f <= 1.0
    ensures 0.0 <= c * f <= c
  {
    assert c * f <= c * 1.0;
  }

  /** A larger percent never leaves more of the trail undrawn. */
  lemma DashOffsetDecreasing(circumference: real, p1: int, p2: int)
    requires circumference > 0.0 && p1 <= p2
    ensures DashOffset(circumference, p2) <= DashOffset(circumference, p1)
  {
    var f1 := if p1 > 0 then p1 as real else 0.0;
    var f2 := if p2 > 0 then p2 as real else 0.0;
    var d := (f2 - f1) / 100.0;
    assert d >= 0.0;
    assert circumference * d >= 0.0 by {
      MultiplyWithinUnit(circumference, if d <= 1.0 then d else 1.0);
      if d > 1.0 {
        assert circumference * d == circumference * 1.0 + circumference * (d - 1.0);
      }
    }
    assert DashOffset(circumference, p1) == circumference * (1.0 - f1 / 100.0);
    assert DashOffset(circumference, p2) == circumference * (1.0 - f2 / 100.0);
    assert circumference * (1.0 - f1 / 100.0) == circumference * (1.0 - f2 / 100.0) + circumference * d;
  }

  /**
   * `mainLabel`: "-" with no active row; for race the formatted key, for age the key
   * followed by " y.o.", for gender the formatted key in capitals.
   */
  function MainLabel(data: Option<Demographics>, active: GroupKey, selected: map<GroupKey, string>): (text: string)
    ensures ActiveRow(data, active, selected).None? ==> text == "-"
    ensures ActiveRow(data, active, selected).Some? ==>
              var k := ActiveRow(data, active, selected).value.key;
              text == match active
                       case Race => FormatLabel(k)
                       case Age => k + " y.o."
                       case Gender => UpperAll(FormatLabel(k))
  {
    match ActiveRow(data, active, selected)
    case None => "-"
    case Some(row) =>
      assert row.display == LabelFor(active, row.key);
      match active
      case Race => row.display
      case Age => row.key + " y.o."
      case Gender => UpperAll(row.display)
  }

  /** The gender headline is the key itself in capitals: formatting first makes no difference. */
  lemma UpperAllFormatLabel(k: string)
    ensures UpperAll(FormatLabel(k)) == UpperAll(k)
  {
    FormatLabelAt(k);
    var f := FormatLabel(k);
    forall i | 0 <= i < |k| ensures UpperAll(f)[i] == UpperAll(k)[i] {
      FormatLabelCharAt(k, i);
      ToUpperCaseFacts(k[i]);
    }
  }

  /**
   * `raceSummaryLabel` / `ageSummaryLabel` / `genderSummaryLabel`: the stored selection
   * once the category's map is present, else the best key, else "Loading..." while
   * loading and "-" after.
   */
  function SummaryLabel(data: Option<Demographics>, g: GroupKey, selected: map<GroupKey, string>, loading: bool): (text: string)
    ensures StoredSelection(selected, g) != "" && data.Some? && GroupOf(data.value, g).Some? ==>
              text == LabelFor(g, StoredSelection(selected, g))
    ensures !(StoredSelection(selected, g) != "" && data.Some? && GroupOf(data.value, g).Some?) ==>
              text == if BestKeyFor(data, g) != "" then LabelFor(g, BestKeyFor(data, g))
                      else if loading then "Loading..." else "-"
    ensures data.None? ==> text == (if loading then "Loading..." else "-")
  {
    var stored := StoredSelection(selected, g);
    var best := BestKeyFor(data, g);
    if stored != "" && data.Some? && GroupOf(data.value, g).Some? then LabelFor(g, stored)
    else if best != "" then LabelFor(g, best)
    else if loading then "Loading..."
    else "-"
  }
  lemma UpperPlaceholders()
    ensures UpperAll("Loading...") == "LOADING..." && UpperAll("-") == "-"
  {
  }

  /**
   * The text of a category button: the summary label, shown in capitals for gender.
   * A gender selection therefore reads as its raw key in capitals, and the
   * placeholder as "LOADING...".
   */
  function SummaryCaption(data: Option<Demographics>, g: GroupKey, selected: map<GroupKey, string>, loading: bool): (text: string)
    ensures g != Gender ==> text == SummaryLabel(data, g, selected, loading)
    ensures g == Gender && StoredSelection(selected, g) != "" && data.Some? && GroupOf(data.value, g).Some? ==>
              text == UpperAll(StoredSelection(selected, g))
    ensures g == Gender && data.None? ==> text == (if loading then "LOADING..." else "-")
    ensures g == Gender && data.Some? && !(StoredSelection(selected, g) != "" && GroupOf(data.value, g).Some?) ==>
              text == if BestKeyFor(data, g) != "" then UpperAll(BestKeyFor(data, g))
                      else if loading then "LOADING..." else "-"
  {
    var shown := SummaryLabel(data, g, selected, loading);
    if g != Gender then shown
    else if StoredSelection(selected, g) != "" && data.Some? && GroupOf(data.value, g).Some? then
      UpperAllFormatLabel(StoredSelection(selected, g));
      UpperAll(shown)
    else if BestKeyFor(data, g) != "" then
      UpperAllFormatLabel(BestKeyFor(data, g));
      UpperAll(shown)
    else
      UpperPlaceholders();
      UpperAll(shown)
  }


  // ---------------------------------------------------------------------------
  // What the selection state shows
  // ---------------------------------------------------------------------------

  /** The selections `fetchDemographics` stores: the best key of every category. */
  function BestKeys(d: Demographics): (selected: map<GroupKey, string>)
    ensures selected.Keys == {Race, Age, Gender}
    ensures forall g :: g in selected ==> selected[g] == BestKeyFor(Some(d), g)
  {
    map[Race := GetBestKey(d.race), Age := GetBestKey(d.age), Gender := GetBestKey(d.gender)]
  }

  /**
   * With no stored selection other than the best key, the active row of a
   * well-formed map whose best key is non-empty is the best key's row: its percent
   * is that of the earliest largest probability of the map.
   */
  lemma DefaultSelectionShowsBest(d: Demographics, active: GroupKey, selected: map<GroupKey, string>)
    requires GroupOf(d, active).Some? && WellFormed(GroupOf(d, active).value)
    requires BestKeyFor(Some(d), active) != ""
    requires StoredSelection(selected, active) in {"", BestKeyFor(Some(d), active)}
    ensures var row := ActiveRow(Some(d), active, selected);
            var g := GroupOf(d, active).value;
            && row.Some?
            && row.value.key == BestKeyFor(Some(d), active)
            && exists j :: IsBest(g, j) && row.value.key == g[j].0
                           && SelectedPercent(Some(d), active, selected) == ToPercent(Some(g[j].1))
  {
    var g := GroupOf(d, active).value;
    var best := BestKeyFor(Some(d), active);
    var rows := RowsFor(Some(d), active);
    var j :| IsBest(g, j) && best == g[j].0;
    RowsAreDisplayOrdered(active, g);
    assert best == Keys(g)[j];
    assert best in RowKeys(rows);
    assert ActiveSelectedKey(Some(d), active, selected) == best;
    var row := ActiveRow(Some(d), active, selected).value;
    assert row in rows && row.key == best;
    var i :| 0 <= i < |rows| && rows[i] == row;
    assert row.percent == ToPercent(Lookup(g, best));
    LookupEntry(g, j);
  }

  /**
   * An empty best key is skipped like an empty stored selection, and the first row
   * is shown; that is the row of the key "" only when that row comes first.
   */
  lemma EmptyBestKeyFallsBackToFirstRow(data: Option<Demographics>, active: GroupKey, selected: map<GroupKey, string>)
    requires StoredSelection(selected, active) == "" && BestKeyFor(data, active) == ""
    requires RowsFor(data, active) != []
    ensures ActiveRow(data, active, selected) == Some(RowsFor(data, active)[0])
  {
    var rows := RowsFor(data, active);
    assert rows[0].key == RowKeys(rows)[0];
  }

  /**
   * Clicking a row of the active table (with a non-empty key) makes it the active
   * row, whatever was selected before.
   */
  lemma ClickSelectsRow(data: Option<Demographics>, active: GroupKey, selected: map<GroupKey, string>, k: string)
    requires k != "" && k in RowKeys(RowsFor(data, active))
    ensures ActiveRow(data, active, selected[active := k]).Some?
    ensures ActiveRow(data, active, selected[active := k]).value.key == k
    ensures SelectedPercent(data, active, selected[active := k]) == FindRow(RowsFor(data, active), k).value.percent
  {
    assert StoredSelection(selected[active := k], active) == k;
  }

  /**
   * Clicking a row whose key is "" stores "", which the fallback chain treats as no
   * selection: the category goes back to the row it shows by default.
   */
  lemma ClickEmptyKeyShowsDefault(data: Option<Demographics>, active: GroupKey, selected: map<GroupKey, string>)
    ensures ActiveRow(data, active, selected[active := ""]) == ActiveRow(data, active, map[])
  {
    assert StoredSelection(selected[active := ""], active) == StoredSelection(map[], active);
  }

  /** A click in one category changes nothing shown for another. */
  lemma ClickKeepsOtherGroups(data: Option<Demographics>, g: GroupKey, h: GroupKey, selected: map<GroupKey, string>, k: string)
    requires g != h
    ensures ActiveRow(data, h, selected[g := k]) == ActiveRow(data, h, selected)
    ensures MainLabel(data, h, selected[g := k]) == MainLabel(data, h, selected)
    ensures forall loading :: SummaryLabel(data, h, selected[g := k], loading) == SummaryLabel(data, h, selected, loading)
  {
    assert StoredSelection(selected[g := k], h) == StoredSelection(selected, h);
  }

  /** Of two entries the second is best only when strictly greater: a tie goes to the first. */
  lemma BestOfTwo(a: string, x: real, b: string, y: real)
    ensures GetBestKey(Some([(a, x), (b, y)])) == if y > x then b else a
  {
    var g := [(a, x), (b, y)];
    var j :| IsBest(g, j) && GetBestKey(Some(g)) == g[j].0;
    var k := if y > x then 1 else 0;
    assert IsBest(g, k);
    BestIsUnique(g, k, j);
  }

  /** The default row of a two-entry category whose first entry is strictly larger. */
  lemma DefaultOfTwo(d: Demographics, active: GroupKey, a: string, x: real, b: string, y: real)
    requires GroupOf(d, active) == Some([(a, x), (b, y)])
    requires x > y && a != b && a != ""
    ensures var row := ActiveRow(Some(d), active, BestKeys(d));
            && row.Some? && row.value.key == a
            && row.value.percent == ToPercent(Some(x))
            && row.value.display == LabelFor(active, a)
  {
    var g := [(a, x), (b, y)];
    BestOfTwo(a, x, b, y);
    assert WellFormed(g);
    DefaultSelectionShowsBest(d, active, BestKeys(d));
    var row := ActiveRow(Some(d), active, BestKeys(d)).value;
    var j :| IsBest(g, j) && row.key == g[j].0
             && SelectedPercent(Some(d), active, BestKeys(d)) == ToPercent(Some(g[j].1));
    assert IsBest(g, 0);
    BestIsUnique(g, 0, j);
    var rows := RowsFor(Some(d), active);
    var i :| 0 <= i < |rows| && rows[i] == row;
  }

  /** `formatLabel` of a single word upper-cases its first character only. */
  lemma FormatSingleWord(w: string)
    requires w != [] && ' ' !in w
    ensures FormatLabel(w) == [ToUpperCase(w[0])] + w[1..]
  {
    SplitSpaceFree(w);
    assert CapitalizeAll([w]) == [Capitalize(w)];
  }

  // The estimate {race: {white: 0.62, black: 0.38}, age: {"20-29": 0.81, "30-39": 0.19},
  // gender: {female: 0.9, male: 0.1}} opens on white (62%), 20-29 (81%) and female (90%).

  lemma WhiteLabel()
    ensures FormatLabel("white") == "White"
  {
    FormatSingleWord("white");
  }

  lemma FemaleLabel()
    ensures FormatLabel("female") == "Female"
    ensures UpperAll(FormatLabel("female")) == "FEMALE"
  {
    FormatSingleWord("female");
  }

  lemma ExamplePercents()
    ensures ToPercent(Some(0.62)) == 62 && ToPercent(Some(0.81)) == 81 && ToPercent(Some(0.9)) == 90
  {
  }

  lemma ExampleRaceDefault(d: Demographics)
    requires d.race == Some([("white", 0.62), ("black", 0.38)])
    ensures ActiveRow(Some(d), Race, BestKeys(d)) == Some(Row("white", "White", 62))
  {
    DefaultOfTwo(d, Race, "white", 0.62, "black", 0.38);
    WhiteLabel();
    ExamplePercents();
    var row := ActiveRow(Some(d), Race, BestKeys(d)).value;
    assert row.key == "white" && row.display == "White" && row.percent == 62;
  }

  lemma ExampleAgeDefault(d: Demographics)
    requires d.age == Some([("20-29", 0.81), ("30-39", 0.19)])
    ensures ActiveRow(Some(d), Age, BestKeys(d)) == Some(Row("20-29", "20-29", 81))
  {
    DefaultOfTwo(d, Age, "20-29", 0.81, "30-39", 0.19);
    ExamplePercents();
    var row := ActiveRow(Some(d), Age, BestKeys(d)).value;
    assert row.key == "20-29" && row.display == "20-29" && row.percent == 81;
  }

  lemma ExampleGenderDefault(d: Demographics)
    requires d.gender == Some([("female", 0.9), ("male", 0.1)])
    ensures ActiveRow(Some(d), Gender, BestKeys(d)) == Some(Row("female", "Female", 90))
  {
    DefaultOfTwo(d, Gender, "female", 0.9, "male", 0.1);
    FemaleLabel();
    ExamplePercents();
    var row := ActiveRow(Some(d), Gender, BestKeys(d)).value;
    assert row.key == "female" && row.display == "Female" && row.percent == 90;
  }

  // ---------------------------------------------------------------------------
  // fetchDemographics (lines 74-141)
  // ---------------------------------------------------------------------------

  /** A thrown value: an `Error` carries a message, anything else does not. */
  datatype Thrown = ErrorObject(message: string) | OtherValue

  /** What the `catch` block shows for a thrown value. */
  function ErrorMessage(t: Thrown): (m: string)
    ensures t.ErrorObject? ==> m == t.message
    ensures t.OtherValue? ==> m == UnknownErrorMessage
  {
    match t
    case ErrorObject(m) => m
    case OtherValue => UnknownErrorMessage
  }

  /**
   * The outcome of the analysis request: `fetch` rejected, or a response with its
   * `ok` flag and the result of decoding its body.
   */
  datatype ImageResponse =
    | NetworkFailure(cause: Thrown)
    | HttpResponse(ok: bool, body: Result<Demographics, Thrown>)

  /** The three ways the page can start. */
  datatype FetchDecision = UseCache | NoImage | Request(image: string)

  /** A stored string counts only when it is present and non-empty. */
  predicate Truthy(s: Option<string>)
  {
    s.Some? && s.value != ""
  }

  /**
   * A captured image is always sent; without one the cached estimate is used when
   * there is one, and otherwise nothing is requested and the page reports an error.
   */
  function DecideFetch(capturedImage: Option<string>, stored: Option<string>): (d: FetchDecision)
    ensures d.Request? <==> Truthy(capturedImage)
    ensures d.Request? ==> d.image == capturedImage.value
    ensures d == UseCache <==> !Truthy(capturedImage) && Truthy(stored)
    ensures d == NoImage <==> !Truthy(capturedImage) && !Truthy(stored)
  {
    if !Truthy(capturedImage) then
      if Truthy(stored) then UseCache else NoImage
    else
      Request(capturedImage.value)
  }

  /** The estimate a response delivers, or the message the page shows instead. */
  function ResponseOutcome(response: ImageResponse): (r: Result<Demographics, string>)
    ensures r.Success? <==> response.HttpResponse? && response.ok && response.body.Success?
    ensures r.Success? ==> r.value == response.body.value
    ensures response.NetworkFailure? ==> r == Failure(ErrorMessage(response.cause))
    ensures response.HttpResponse? && !response.ok ==> r == Failure(FetchFailedMessage)
    ensures response.HttpResponse? && response.ok && response.body.Failure? ==>
              r == Failure(ErrorMessage(response.body.error))
  {
    match response
    case NetworkFailure(t) => Failure(ErrorMessage(t))
    case HttpResponse(ok, body) =>
      if !ok then Failure(FetchFailedMessage)
      else match body
        case Success(d) => Success(d)
        case Failure(t) => Failure(ErrorMessage(t))
  }

  /** The state of the summary page. */
  class SummaryPage {
    var data: Option<Demographics>
    var loading: bool
    var error: Option<string>
    var activeGroup: GroupKey
    var selectedKeys: map<GroupKey, string>

    constructor ()
      ensures data == None && loading && error == None
      ensures activeGroup == Race && selectedKeys == map[]
    {
      data := None;
      loading := true;
      error := None;
      activeGroup := Race;
      selectedKeys := map[];
    }

    /**
     * `fetchDemographics`, with the two local-storage values, the decoded cached blob
     * and the service's response as parameters. Returns the image sent to the service
     * (`None` when no request is made) and the estimate written back to the cache.
     */
    method FetchDemographics(capturedImage: Option<string>, stored: Option<string>,
                             cachedEstimate: Result<Demographics, Thrown>, response: ImageResponse)
      returns (sentImage: Option<string>, written: Option<Demographics>)
      modifies this
      ensures !loading && activeGroup == old(activeGroup)
      ensures DecideFetch(capturedImage, stored) == NoImage ==>
                && sentImage == None && written == None
                && error == Some(NoImageMessage)
                && data == old(data) && selectedKeys == old(selectedKeys)
      ensures DecideFetch(capturedImage, stored) == UseCache ==>
                && sentImage == None && written == None
                && match cachedEstimate
                   case Success(d) => data == Some(d) && selectedKeys == BestKeys(d) && error == None
                   case Failure(t) =>
                     && error == Some(ErrorMessage(t))
                     && data == old(data) && selectedKeys == old(selectedKeys)
      ensures DecideFetch(capturedImage, stored).Request? ==>
                && sentImage == Some(capturedImage.value)
                && match ResponseOutcome(response)
                   case Success(d) =>
                     data == Some(d) && selectedKeys == BestKeys(d) && error == None && written == Some(d)
                   case Failure(m) =>
                     && error == Some(m) && written == None
                     && data == old(data) && selectedKeys == old(selectedKeys)
    {
      loading := true;
      error := None;
      sentImage, written := None, None;
      var failure: Option<Thrown> := None;
      match DecideFetch(capturedImage, stored) {
        case UseCache =>
          match cachedEstimate {
            case Success(d) =>
              data := Some(d);
              selectedKeys := BestKeys(d);
              loading := false;
            case Failure(t) =>
              failure := Some(t);
          }
        case NoImage =>
          failure := Some(ErrorObject(NoImageMessage));
        case Request(image) =>
          sentImage := Some(image);
          match response {
            case NetworkFailure(t) =>
              failure := Some(t);
            case HttpResponse(ok, body) =>
              if !ok {
                failure := Some(ErrorObject(FetchFailedMessage));
              } else {
                match body {
                  case Failure(t) =>
                    failure := Some(t);
                  case Success(d) =>
                    data := Some(d);
                    selectedKeys := BestKeys(d);
                    written := Some(d);
                }
              }
          }
      }
      if failure.Some? {
        error := Some(ErrorMessage(failure.value));
      }
      loading := false;
    }

    /** The category tabs: switch the displayed category, keeping every selection. */
    method SetActiveGroup(g: GroupKey)
      modifies this
      ensures activeGroup == g
      ensures data == old(data) && loading == old(loading) && error == old(error)
      ensures selectedKeys == old(selectedKeys)
    {
      activeGroup := g;
    }

    /** `handleRowClick`: record `key` as the selection of `group` only. */
    method HandleRowClick(group: GroupKey, key: string)
      modifies this
      ensures selectedKeys == old(selectedKeys)[group := key]
      ensures forall h :: h != group ==> StoredSelection(selectedKeys, h) == StoredSelection(old(selectedKeys), h)
      ensures data == old(data) && loading == old(loading) && error == old(error)
      ensures activeGroup == old(activeGroup)
    {
      selectedKeys := selectedKeys[group := key];
    }
  }
}
