/** The patient table (`PatientTable.tsx`): name formatting, and the query variables
    built from the table state before each fetch, with the result written back. */
module PatientTable {
  import opened Wrappers
  import opened JsText
  import opened JsValue
  import GraphQLTable

  /** A FHIR `HumanName`, by the two parts the table reads. */
  datatype HumanName = HumanName(given: Option<seq<string>>, family: Option<string>)

  /** `Patient.name` as the query returns it: absent, one name, or a list of names. */
  datatype NameArg = NoName | OneName(name: HumanName) | NameList(names: seq<HumanName>)

  /** `${x}` of an optional string: a missing part is written `undefined`. */
  function TextOf(s: Option<string>): string {
    match s
    case None => "undefined"
    case Some(t) => t
  }

  /** `name.given?.[0]`. */
  function FirstGiven(h: HumanName): (r: Option<string>)
    ensures r.Some? <==> h.given.Some? && |h.given.value| > 0
  {
    match h.given
    case None => None
    case Some(g) => if |g| > 0 then Some(g[0]) else None
  }

  /** `${given?.[0]} ${family}` of one name. */
  function FullName(h: HumanName): string {
    TextOf(FirstGiven(h)) + " " + TextOf(h.family)
  }

  /** `formatName(name)`: `""` without a name; a list uses its first name, and an empty
      list has none, so reading `given` of `undefined` throws. */
  function FormatName(name: NameArg): (r: Result<string>)
    ensures name.NoName? ==> r == Ok("")
    ensures r.TypeError? <==> name == NameList([])
    ensures name.OneName? ==> r == Ok(FullName(name.name))
    ensures name.NameList? && |name.names| > 0 ==> r == Ok(FullName(name.names[0]))
  {
    match name
    case NoName => Ok("")
    case OneName(h) => Ok(FullName(h))
    case NameList(hs) => if |hs| == 0 then TypeError else Ok(FullName(hs[0]))
  }

  /** The text before the first space. */
  function FirstWord(s: string): string {
    s[..IndexOf(s, ' ')]
  }

  /** The text after the first space. */
  function AfterFirstWord(s: string): string {
    var k := IndexOf(s, ' ');
    if k < |s| then s[k + 1..] else ""
  }

  /** A given name without spaces is read back as the first word of the formatted name,
      and the family name as the rest. */
  lemma {:induction false} FormatNameParts(given: string, more: seq<string>, family: string)
    requires forall i :: 0 <= i < |given| ==> given[i] != ' '
    ensures var r := FormatName(OneName(HumanName(Some([given] + more), Some(family))));
            r.Ok? && FirstWord(r.value) == given && AfterFirstWord(r.value) == family
  {
    var s := given + " " + family;
    assert FirstGiven(HumanName(Some([given] + more), Some(family))) == Some(given);
    assert forall i :: 0 <= i < |given| ==> s[i] == given[i];
    assert s[|given|] == ' ';
    assert IndexOf(s, ' ') == |given|;
    assert s[..|given|] == given;
    assert s[|given| + 1..] == family;
  }

  /** A column filter of the table. */
  datatype ColumnFilter = ColumnFilter(id: string, value: string)

  /** A sorted column; `desc` for descending order. */
  datatype Sorting = Sorting(id: string, desc: bool)

  /** `name co "<value>"`. */
  function NameContains(value: string): (r: string)
    ensures |r| > 0
  {
    "name co \"" + value + "\""
  }

  /** The filter terms of the column filters: one `name co` term per filter on the
      `name` column, in order; other columns contribute nothing. */
  function ColumnTerms(filters: seq<ColumnFilter>): seq<string>
  {
    if |filters| == 0 then []
    else
      var last := filters[|filters| - 1];
      ColumnTerms(filters[..|filters| - 1]) + (if last.id == "name" then [NameContains(last.value)] else [])
  }

  /** Every term comes from a `name` filter, and every `name` filter gives a term. */
  lemma {:induction false} ColumnTermsAreNameFilters(filters: seq<ColumnFilter>)
    ensures forall t :: t in ColumnTerms(filters) ==>
              exists i :: 0 <= i < |filters| && filters[i].id == "name" && t == NameContains(filters[i].value)
    ensures forall i :: 0 <= i < |filters| && filters[i].id == "name" ==> NameContains(filters[i].value) in ColumnTerms(filters)
  {
    if |filters| > 0 {
      var init := filters[..|filters| - 1];
      ColumnTermsAreNameFilters(init);
      assert forall i :: 0 <= i < |init| ==> init[i] == filters[i];
    }
  }

  /** No filter on the `name` column gives no terms. */
  lemma {:induction false} NoNameFilterNoTerms(filters: seq<ColumnFilter>)
    requires forall i :: 0 <= i < |filters| ==> filters[i].id != "name"
    ensures ColumnTerms(filters) == []
  {
    if |filters| > 0 {
      NoNameFilterNoTerms(filters[..|filters| - 1]);
    }
  }

  /** The filter terms of a fetch: the column terms, then the global filter's when it is
      not empty. */
  function RootFilters(filters: seq<ColumnFilter>, globalFilter: string): seq<string> {
    ColumnTerms(filters) + (if globalFilter != "" then [NameContains(globalFilter)] else [])
  }

  lemma {:induction false} ColumnTermsNonEmpty(filters: seq<ColumnFilter>)
    ensures forall i :: 0 <= i < |ColumnTerms(filters)| ==> ColumnTerms(filters)[i] != ""
  {
    if |filters| > 0 {
      ColumnTermsNonEmpty(filters[..|filters| - 1]);
    }
  }

  /** The loop that collects the filter terms. */
  method CollectFilters(filters: seq<ColumnFilter>, globalFilter: string) returns (terms: seq<string>)
    ensures terms == RootFilters(filters, globalFilter)
  {
    terms := [];
    for i := 0 to |filters|
      invariant terms == ColumnTerms(filters[..i])
    {
      assert filters[..i + 1][..i] == filters[..i];
      if filters[i].id == "name" {
        terms := terms + [NameContains(filters[i].value)];
      }
    }
    assert filters[..|filters|] == filters;
    if globalFilter != "" {
      terms := terms + [NameContains(globalFilter)];
    }
  }

  /** `rootFilters.join(' and ') || undefined`: no filter terms give no filter at all. */
  function MappedFilters(terms: seq<string>): (r: Option<string>)
    ensures r.Some? ==> r.value != "" && r.value == Join(terms, " and ")
    ensures r.None? <==> Join(terms, " and ") == ""
  {
    var joined := Join(terms, " and ");
    if joined == "" then None else Some(joined)
  }

  /** One more filter term is appended after `" and "`. */
  lemma {:induction false} FiltersJoined(terms: seq<string>, t: string)
    requires terms != [] && MappedFilters(terms).Some?
    ensures MappedFilters(terms + [t]) == Some(MappedFilters(terms).value + " and " + t)
  {
    JoinSnoc(terms, " and ", t);
  }

  /** The filter is absent exactly when there is no `name` column filter and the global
      filter is empty; it is never the empty string. */
  lemma {:induction false} FilterAbsentIffNoTerms(filters: seq<ColumnFilter>, globalFilter: string)
    ensures MappedFilters(RootFilters(filters, globalFilter)).None?
            <==> ColumnTerms(filters) == [] && globalFilter == ""
  {
    var terms := RootFilters(filters, globalFilter);
    ColumnTermsNonEmpty(filters);
    assert forall i :: 0 <= i < |terms| ==> terms[i] != "";
    JoinEmptyIffNoParts(terms, " and ");
  }

  /** `${desc ? '-' : ''}${id}`. */
  function SortTerm(s: Sorting): string {
    (if s.desc then "-" else "") + s.id
  }

  /** Reading a sort term back: a leading `-` means descending. */
  function ParseSortTerm(t: string): Sorting {
    if |t| > 0 && t[0] == '-' then Sorting(t[1..], true) else Sorting(t, false)
  }

  /** A column id that does not itself start with `-` survives the round trip. */
  lemma {:induction false} SortTermRoundTrip(s: Sorting)
    requires |s.id| == 0 || s.id[0] != '-'
    ensures ParseSortTerm(SortTerm(s)) == s
  {
    if s.desc {
      assert SortTerm(s)[1..] == s.id;
    }
  }

  function SortTerms(sorting: seq<Sorting>): (r: seq<string>)
    ensures |r| == |sorting|
    ensures forall i :: 0 <= i < |r| ==> r[i] == SortTerm(sorting[i])
  {
    if |sorting| == 0 then [] else [SortTerm(sorting[0])] + SortTerms(sorting[1..])
  }

  /** The sort variable: the sort terms joined by `,`. */
  function MappedSorting(sorting: seq<Sorting>): (r: string)
    ensures sorting == [] ==> r == ""
    ensures |sorting| == 1 ==> r == SortTerm(sorting[0])
    ensures |sorting| >= 2 ==> r == SortTerm(sorting[0]) + "," + MappedSorting(sorting[1..])
  {
    assert |sorting| > 0 ==> SortTerms(sorting)[1..] == SortTerms(sorting[1..]);
    Join(SortTerms(sorting), ",")
  }

  /** Reading a sort string back, term by term. */
  function ParseSortTerms(terms: seq<string>): (r: seq<Sorting>)
    ensures |r| == |terms| && forall i :: 0 <= i < |r| ==> r[i] == ParseSortTerm(terms[i])
  {
    if |terms| == 0 then [] else [ParseSortTerm(terms[0])] + ParseSortTerms(terms[1..])
  }

  /** The sort string of one or more columns splits at `,` back into the columns and
      their directions, when no column id contains `,` or starts with `-`. */
  lemma {:induction false} SortingRoundTrip(sorting: seq<Sorting>)
    requires sorting != []
    requires forall i :: 0 <= i < |sorting| ==> ',' !in sorting[i].id
    requires forall i :: 0 <= i < |sorting| ==> |sorting[i].id| == 0 || sorting[i].id[0] != '-'
    ensures ParseSortTerms(Split(MappedSorting(sorting), ',')) == sorting
  {
    var terms := SortTerms(sorting);
    forall i | 0 <= i < |terms| ensures ',' !in terms[i] {
      assert terms[i] == (if sorting[i].desc then "-" else "") + sorting[i].id;
    }
    assert [','] == ",";
    SplitJoin(terms, ',');
    forall i | 0 <= i < |sorting| ensures ParseSortTerm(terms[i]) == sorting[i] {
      SortTermRoundTrip(sorting[i]);
    }
  }

  /** The variables sent with the query. */
  datatype Query = Query(offset: int, count: int, filters: Option<string>, sorting: string)

  /** What the GraphQL request returns: the error messages, or one page of rows. */
  datatype QueryResult =
    | Errors(messages: seq<string>)
    | Page(count: int, pageSize: int, edges: seq<Value>)

  /** `{...v}`: the own entries of `v` copied into a new object; `null`, `undefined`,
      numbers and booleans spread to `{}`. */
  function SpreadCopy(v: Value): (r: Value)
    ensures v.Obj? ==> r == v
    ensures IsNullish(v) ==> r == Obj([])
    ensures r.Obj? && r.fields == Entries(v)
  {
    Obj(Entries(v))
  }

  function SpreadCopies(vs: seq<Value>): (r: seq<Value>)
    ensures |r| == |vs| && forall i :: 0 <= i < |vs| ==> r[i] == SpreadCopy(vs[i])
  {
    if |vs| == 0 then [] else [SpreadCopy(vs[0])] + SpreadCopies(vs[1..])
  }

  /** `edges.map(({ resource }) => ({ ...resource }))`: destructuring a `null` or
      `undefined` edge throws; any other edge gives a copy of its `resource`. */
  function PageRows(edges: seq<Value>): (r: Result<seq<Value>>)
    ensures r.TypeError? <==> exists i :: 0 <= i < |edges| && IsNullish(edges[i])
    ensures r.Ok? ==> |r.value| == |edges|
                      && forall i :: 0 <= i < |edges| ==> r.value[i] == SpreadCopy(Prop(edges[i], "resource"))
  {
    match GraphQLTable.Resources(edges)
    case TypeError => TypeError
    case Ok(rs) => Ok(SpreadCopies(rs))
  }

  /** Edges wrapping object resources give those resources back as the rows. */
  lemma {:induction false} RowsOfWrappedResources(resources: seq<Value>)
    requires forall i :: 0 <= i < |resources| ==> resources[i].Obj?
    ensures PageRows(GraphQLTable.Wrap(resources)) == Ok(resources)
  {
    GraphQLTable.WrapResources(resources);
    assert SpreadCopies(resources) == resources;
  }

  /** The state of the table. */
  class PatientTable {
    var data: seq<Value>
    var isLoading: bool
    var error: Option<string>
    var isRefetching: bool
    var columnFilters: seq<ColumnFilter>
    var globalFilter: string
    var sorting: seq<Sorting>
    var rowCount: int
    var pageIndex: int
    var pageSize: int

    /** The initial state: no rows, loading, first page of ten. */
    constructor ()
      ensures data == [] && isLoading && error.None? && !isRefetching
      ensures columnFilters == [] && globalFilter == "" && sorting == []
      ensures rowCount == 0 && pageIndex == 0 && pageSize == 10
    {
      data := [];
      isLoading := true;
      error := None;
      isRefetching := false;
      columnFilters := [];
      globalFilter := "";
      sorting := [];
      rowCount := 0;
      pageIndex := 0;
      pageSize := 10;
    }

    /** The start of `fetchPatients`: the first load shows the loader, later ones the
        progress bar; the query asks for the current page. */
    method StartFetch() returns (q: Query)
      modifies this
      ensures q.offset == old(pageIndex) * old(pageSize) && q.count == old(pageSize)
      ensures q.filters == MappedFilters(RootFilters(old(columnFilters), old(globalFilter)))
      ensures q.sorting == MappedSorting(old(sorting))
      ensures old(data) == [] ==> isLoading == true && isRefetching == old(isRefetching)
      ensures old(data) != [] ==> isRefetching == true && isLoading == old(isLoading)
      ensures data == old(data) && error == old(error) && columnFilters == old(columnFilters)
      ensures globalFilter == old(globalFilter) && sorting == old(sorting)
      ensures rowCount == old(rowCount) && pageIndex == old(pageIndex) && pageSize == old(pageSize)
    {
      if |data| == 0 {
        isLoading := true;
      } else {
        isRefetching := true;
      }
      var offset := pageIndex * pageSize;
      var terms := CollectFilters(columnFilters, globalFilter);
      q := Query(offset, pageSize, MappedFilters(terms), MappedSorting(sorting));
    }

    /** The end of `fetchPatients`: errors are shown joined by `", "` and leave the rows
        as they were; a page replaces the rows, the row count and the page size and
        clears the error. Both end the loading. */
    method FinishFetch(result: QueryResult) returns (thrown: bool)
      modifies this
      ensures thrown <==> result.Page? && PageRows(result.edges).TypeError?
      ensures result.Errors? ==> error == Some(Join(result.messages, ", ")) && data == old(data)
                                 && rowCount == old(rowCount) && pageSize == old(pageSize)
      ensures result.Page? ==> rowCount == result.count && pageSize == result.pageSize
      ensures result.Page? && !thrown ==> error.None? && data == PageRows(result.edges).value
      ensures thrown ==> data == old(data) && error == old(error)
                         && isLoading == old(isLoading) && isRefetching == old(isRefetching)
      ensures !thrown ==> !isLoading && !isRefetching
      ensures columnFilters == old(columnFilters) && globalFilter == old(globalFilter)
      ensures sorting == old(sorting) && pageIndex == old(pageIndex)
    {
      thrown := false;
      if result.Errors? {
        error := Some(Join(result.messages, ", "));
      } else {
        rowCount := result.count;
        pageSize := result.pageSize;
        var rows := PageRows(result.edges);
        if rows.TypeError? {
          return true;
        }
        data := rows.value;
        error := None;
      }
      isLoading := false;
      isRefetching := false;
    }
  }
}
