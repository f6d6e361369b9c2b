/** `select_pallets` and `select_benchmarks`, and what the two stages guarantee together. */
module BenchmarkSelection {
  import opened Wrappers
  import opened Ordering
  import opened Selectors

  datatype SelectError = InvalidRow | NothingRegistered | UnknownPallets | BadSelectors |
                         NothingSelected | EmptyRegistry | AbsentPallets | UnknownExtrinsics | NothingMatches

  /** One tab-separated row: the pallet, its weights file and its comma-joined selectors. */
  datatype Row = Row(pallet: string, path: string, selectors: string)

  const PATH_PREFIX := "pallets/"
  const PATH_SUFFIX := "/src/weights.rs"

  /** The directory in a full match of the weights path pattern. */
  function DirOf(path: string): Option<string> {
    var n := |path| - |PATH_SUFFIX|;
    if n <= |PATH_PREFIX| || !(PATH_PREFIX <= path) || path[n..] != PATH_SUFFIX then None
    else
      var dir := path[|PATH_PREFIX|..n];
      if forall i :: 0 <= i < |dir| ==> IsNameChar(dir[i], true) then Some(dir) else None
  }

  /** A path matches exactly when it is the weights file of a directory with such a name. */
  lemma DirOfIff(path: string, dir: string)
    ensures DirOf(path) == Some(dir) <==>
            path == "pallets/" + dir + "/src/weights.rs" && dir != "" && forall i :: 0 <= i < |dir| ==> IsNameChar(dir[i], true)
  {
    var n := |path| - |PATH_SUFFIX|;
    if DirOf(path) == Some(dir) {
      assert path == path[..|PATH_PREFIX|] + path[|PATH_PREFIX|..n] + path[n..];
    }
    if path == PATH_PREFIX + dir + PATH_SUFFIX {
      assert path[..|PATH_PREFIX|] == PATH_PREFIX && path[|PATH_PREFIX|..n] == dir && path[n..] == PATH_SUFFIX;
    }
  }

  // ----- select_pallets ------------------------------------------------------------------

  /** A valid discovery listing: every row well formed, every pallet once. */
  ghost predicate ValidListing(rows: seq<(string, string)>) {
    (forall i :: 0 <= i < |rows| ==> IsName(rows[i].0, false) && DirOf(rows[i].1).Some?) &&
    (forall i, j :: 0 <= i < j < |rows| ==> rows[i].0 != rows[j].0)
  }

  /** A pallet answers to its own name and to the name of its directory. */
  predicate Answers(row: (string, string), name: string) {
    row.0 == name || DirOf(row.1) == Some(name)
  }

  /** A requested name means the pallet of that name or the pallet in that directory. */
  lemma AnswersIff(row: (string, string), name: string)
    requires IsName(name, true)
    ensures Answers(row, name) <==> row.0 == name || row.1 == "pallets/" + name + "/src/weights.rs"
  {
    DirOfIff(row.1, name);
  }

  /** A pallet is selected by `*` or by one of the requested names. */
  ghost predicate Selected(row: (string, string), requested: seq<string>) {
    requested == STAR || exists n :: n in requested && Answers(row, n)
  }

  /** A requested name that no registered pallet answers to. */
  ghost predicate Unknown(rows: seq<(string, string)>, requested: seq<string>) {
    requested != STAR && exists n :: n in requested && forall row :: row in rows ==> !Answers(row, n)
  }

  /** One row for every selected pallet, in pallet order, all with the same selectors. */
  ghost predicate PalletRows(rows: seq<(string, string)>, requested: seq<string>, selectors: string, out: seq<Row>) {
    Ascending(Pallets(out)) && (forall row :: row in out ==> row.selectors == selectors) &&
    forall p, path :: Row(p, path, selectors) in out <==> (p, path) in rows && Selected((p, path), requested)
  }

  method SelectPallets(rows: seq<(string, string)>, palletDirs: string, extrinsics: string)
    returns (r: Result<seq<Row>, SelectError>)
    ensures var requested, names := ParseSelectors(palletDirs, true), ParseSelectors(extrinsics, false);
            if ValidListing(rows) && rows != [] && requested.Success? && names.Success? && !Unknown(rows, requested.value)
            then r.Success? && PalletRows(rows, requested.value, Join(names.value), r.value)
            else r.Failure?
  {
    var valid, pallets := CheckListing(rows);
    if !valid {
      return Failure(InvalidRow);
    }
    if rows == [] {
      return Failure(NothingRegistered);
    }
    var requested := ParseSelectors(palletDirs, true);
    var names := ParseSelectors(extrinsics, false);
    if requested.Failure? || names.Failure? {
      return Failure(BadSelectors);
    }
    var unknown := requested.value != STAR && exists n :: n in requested.value && forall row :: row in rows ==> !Answers(row, n);
    if unknown {
      return Failure(UnknownPallets);
    }
    var chosen := ChoosePallets(rows, requested.value);
    var out := EmitRows(rows, requested.value, pallets, chosen, Join(names.value));
    return Success(out);
  }

  method ChoosePallets(rows: seq<(string, string)>, requested: seq<string>) returns (chosen: seq<string>)
    ensures Ascending(chosen)
    ensures forall p :: p in chosen <==> exists j :: 0 <= j < |rows| && rows[j].0 == p && Selected(rows[j], requested)
  {
    var found := [];
    for i := 0 to |rows|
      invariant forall p :: p in found <==> exists j :: 0 <= j < i && rows[j].0 == p && Selected(rows[j], requested)
    {
      if requested == STAR || exists n :: n in requested && Answers(rows[i], n) {
        found := found + [rows[i].0];
      }
    }
    chosen := SortedUnique(found);
  }

  method EmitRows(ghost rows: seq<(string, string)>, ghost requested: seq<string>, pallets: map<string, string>,
                  chosen: seq<string>, selectors: string)
    returns (out: seq<Row>)
    requires forall p, path :: (p, path) in rows <==> p in pallets && pallets[p] == path
    requires Ascending(chosen)
    requires forall p :: p in chosen <==> exists j :: 0 <= j < |rows| && rows[j].0 == p && Selected(rows[j], requested)
    ensures PalletRows(rows, requested, selectors, out)
  {
    forall p | p in chosen
      ensures p in pallets && Selected((p, pallets[p]), requested)
    {
      var j :| 0 <= j < |rows| && rows[j].0 == p && Selected(rows[j], requested);
      assert rows[j] == (p, rows[j].1) && rows[j] in rows;
    }
    out := [];
    for i := 0 to |chosen|
      invariant |out| == i
      invariant forall j :: 0 <= j < i ==> out[j] == Row(chosen[j], pallets[chosen[j]], selectors)
    {
      assert chosen[i] in chosen;
      out := out + [Row(chosen[i], pallets[chosen[i]], selectors)];
    }
    assert Pallets(out) == chosen;
    forall p, path
      ensures Row(p, path, selectors) in out <==> (p, path) in rows && Selected((p, path), requested)
    {
      if Row(p, path, selectors) in out {
        assert p in chosen;
      }
      if (p, path) in rows && Selected((p, path), requested) {
        var j :| 0 <= j < |rows| && rows[j] == (p, path);
        assert p in chosen;
        var k :| 0 <= k < |chosen| && chosen[k] == p;
        assert out[k] == Row(p, path, selectors);
      }
    }
  }

  function Pallets(rows: seq<Row>): (names: seq<string>)
    ensures |names| == |rows| && forall i :: 0 <= i < |rows| ==> names[i] == rows[i].pallet
  {
    seq(|rows|, i requires 0 <= i < |rows| => rows[i].pallet)
  }

  method CheckListing(rows: seq<(string, string)>) returns (valid: bool, pallets: map<string, string>)
    ensures valid <==> ValidListing(rows)
    ensures valid ==> forall p, path :: (p, path) in rows <==> p in pallets && pallets[p] == path
  {
    pallets := map[];
    for i := 0 to |rows|
      invariant ValidListing(rows[..i])
      invariant forall p :: p in pallets <==> exists j :: 0 <= j < i && rows[j].0 == p
      invariant forall j :: 0 <= j < i ==> rows[j].0 in pallets && pallets[rows[j].0] == rows[j].1
    {
      if !IsName(rows[i].0, false) || DirOf(rows[i].1).None? || rows[i].0 in pallets {
        return false, pallets;
      }
      pallets := pallets[rows[i].0 := rows[i].1];
    }
    assert rows[..|rows|] == rows;
    return true, pallets;
  }

  // ----- select_benchmarks ---------------------------------------------------------------

  /** A selected pallet with its parsed selectors. */
  datatype Choice = Choice(pallet: string, path: string, names: seq<string>)

  predicate ValidRow(row: Row) {
    IsName(row.pallet, false) && DirOf(row.path).Some? && ParseSelectors(row.selectors, false).Success?
  }

  function NamesOf(row: Row): seq<string> {
    var names := ParseSelectors(row.selectors, false);
    if names.Success? then names.value else []
  }

  function ChoiceOf(row: Row): Choice {
    Choice(row.pallet, row.path, NamesOf(row))
  }

  /** A valid selection: rows well formed with selectors that parse, every pallet once. */
  ghost predicate ValidSelection(rows: seq<Row>) {
    (forall i :: 0 <= i < |rows| ==> ValidRow(rows[i])) &&
    (forall i, j :: 0 <= i < j < |rows| ==> rows[i].pallet != rows[j].pallet)
  }

  /** The dictionary that the rows fill: their choices, under their pallets. */
  ghost predicate Chosen(rows: seq<Row>, selection: map<string, Choice>) {
    (forall i :: 0 <= i < |rows| ==> rows[i].pallet in selection && selection[rows[i].pallet] == ChoiceOf(rows[i])) &&
    (forall p :: p in selection ==> exists i :: 0 <= i < |rows| && rows[i].pallet == p)
  }

  /** The runtime's own listing of (pallet, extrinsic) pairs. */
  predicate ValidRegistry(listing: seq<(string, string)>) {
    forall i :: 0 <= i < |listing| ==> IsName(listing[i].0, false) && IsName(listing[i].1, false)
  }

  predicate Registered(listing: seq<(string, string)>, pallet: string) {
    exists i :: 0 <= i < |listing| && listing[i].0 == pallet
  }

  function Listed(names: seq<string>, listing: seq<(string, string)>, pallet: string): seq<string> {
    if names == [] then []
    else (if (pallet, names[0]) in listing then [names[0]] else []) + Listed(names[1..], listing, pallet)
  }

  lemma {:induction false} ListedMembers(names: seq<string>, listing: seq<(string, string)>, pallet: string)
    ensures forall n :: n in Listed(names, listing, pallet) <==> n in names && (pallet, n) in listing
  {
    if names != [] {
      ListedMembers(names[1..], listing, pallet);
    }
  }

  /** What a pallet runs: everything, or the requested names that it lists. */
  function Matched(c: Choice, listing: seq<(string, string)>): seq<string> {
    if c.names == STAR then STAR else SortedUnique(Listed(c.names, listing, c.pallet))
  }

  function RunOf(c: Choice, listing: seq<(string, string)>): Row {
    Row(c.pallet, c.path, Join(Matched(c, listing)))
  }

  /** A requested extrinsic that no selected pallet lists. */
  ghost predicate UnknownExtrinsic(selection: map<string, Choice>, listing: seq<(string, string)>, n: string) {
    n != "*" && (exists p :: p in selection && n in selection[p].names) &&
    forall p :: p in selection ==> (p, n) !in listing
  }

  /** The pallet has something to run and the row says what. */
  ghost predicate IsRun(selection: map<string, Choice>, listing: seq<(string, string)>, row: Row) {
    row.pallet in selection && Matched(selection[row.pallet], listing) != [] && row == RunOf(selection[row.pallet], listing)
  }

  /** The pallets with something to run, in pallet order, each with what it runs. */
  ghost predicate BenchmarkRows(selection: map<string, Choice>, listing: seq<(string, string)>, out: seq<Row>) {
    Ascending(Pallets(out)) &&
    (forall row :: row in out ==> IsRun(selection, listing, row)) &&
    (forall p :: p in selection && Matched(selection[p], listing) != [] ==> RunOf(selection[p], listing) in out)
  }

  /** The checks that stand between a selection and its rows. */
  ghost predicate Runnable(selection: map<string, Choice>, listing: seq<(string, string)>) {
    (forall p :: p in selection ==> Registered(listing, p)) &&
    (forall n :: !UnknownExtrinsic(selection, listing, n)) &&
    (exists p :: p in selection && Matched(selection[p], listing) != [])
  }

  method SelectBenchmarks(rows: seq<Row>, listing: seq<(string, string)>)
    returns (r: Result<seq<Row>, SelectError>, selection: map<string, Choice>)
    ensures ValidSelection(rows) ==> Chosen(rows, selection)
    ensures if ValidSelection(rows) && rows != [] && ValidRegistry(listing) && listing != [] && Runnable(selection, listing)
            then r.Success? && BenchmarkRows(selection, listing, r.value)
            else r.Failure?
  {
    var valid;
    valid, selection := CheckSelection(rows);
    if !valid {
      return Failure(InvalidRow), selection;
    }
    if rows == [] {
      return Failure(NothingSelected), selection;
    }
    if !ValidRegistry(listing) {
      return Failure(InvalidRow), selection;
    }
    if listing == [] {
      return Failure(EmptyRegistry), selection;
    }
    r := SelectRuns(selection, listing);
  }

  /** The checks of the selection against the registry, and the rows. */
  method SelectRuns(selection: map<string, Choice>, listing: seq<(string, string)>) returns (r: Result<seq<Row>, SelectError>)
    requires forall p :: p in selection ==> selection[p].pallet == p
    ensures if Runnable(selection, listing) then r.Success? && BenchmarkRows(selection, listing, r.value) else r.Failure?
  {
    if exists p :: p in selection && !Registered(listing, p) {
      return Failure(AbsentPallets);
    }
    var unknown := CheckUnknown(selection, listing);
    if unknown {
      return Failure(UnknownExtrinsics);
    }
    var out := MatchRows(selection, listing);
    SomethingMatches(selection, listing, out);
    if out == [] {
      return Failure(NothingMatches);
    }
    return Success(out);
  }

  lemma SomethingMatches(selection: map<string, Choice>, listing: seq<(string, string)>, out: seq<Row>)
    requires BenchmarkRows(selection, listing, out)
    ensures out != [] <==> exists p :: p in selection && Matched(selection[p], listing) != []
  {
    if out != [] {
      assert out[0] in out;
      assert IsRun(selection, listing, out[0]);
    }
  }

  method CheckSelection(rows: seq<Row>) returns (valid: bool, selection: map<string, Choice>)
    ensures valid <==> ValidSelection(rows)
    ensures valid ==> Chosen(rows, selection)
  {
    selection := map[];
    for i := 0 to |rows|
      invariant ValidSelection(rows[..i]) && Chosen(rows[..i], selection)
    {
      if !ValidRow(rows[i]) {
        return false, selection;
      }
      if rows[i].pallet in selection {
        RepeatedPallet(rows, i, selection);
        return false, selection;
      }
      SelectionStep(rows, i, selection);
      selection := selection[rows[i].pallet := ChoiceOf(rows[i])];
    }
    assert rows[..|rows|] == rows;
    return true, selection;
  }

  lemma RepeatedPallet(rows: seq<Row>, i: nat, selection: map<string, Choice>)
    requires i < |rows| && Chosen(rows[..i], selection) && rows[i].pallet in selection
    ensures !ValidSelection(rows)
  {
    var j :| 0 <= j < i && rows[..i][j].pallet == rows[i].pallet;
    assert rows[j].pallet == rows[i].pallet;
  }

  lemma SelectionStep(rows: seq<Row>, i: nat, selection: map<string, Choice>)
    requires i < |rows| && ValidSelection(rows[..i]) && Chosen(rows[..i], selection)
    requires ValidRow(rows[i]) && rows[i].pallet !in selection
    ensures ValidSelection(rows[..i + 1]) && Chosen(rows[..i + 1], selection[rows[i].pallet := ChoiceOf(rows[i])])
  {
    assert rows[..i + 1] == rows[..i] + [rows[i]];
    AddValid(rows[..i], rows[i], selection);
    AddChosen(rows[..i], rows[i], selection);
  }

  lemma AddValid(rows: seq<Row>, row: Row, selection: map<string, Choice>)
    requires ValidSelection(rows) && Chosen(rows, selection) && ValidRow(row) && row.pallet !in selection
    ensures ValidSelection(rows + [row])
  {
    var next := rows + [row];
    forall i | 0 <= i < |rows|
      ensures next[i] == rows[i] && rows[i].pallet != row.pallet
    {
    }
  }

  lemma AddChosen(rows: seq<Row>, row: Row, selection: map<string, Choice>)
    requires Chosen(rows, selection) && row.pallet !in selection
    ensures Chosen(rows + [row], selection[row.pallet := ChoiceOf(row)])
  {
    var next, selection' := rows + [row], selection[row.pallet := ChoiceOf(row)];
    forall i | 0 <= i < |next|
      ensures next[i].pallet in selection' && selection'[next[i].pallet] == ChoiceOf(next[i])
    {
      if i < |rows| {
        assert next[i] == rows[i] && rows[i].pallet in selection;
      }
    }
    forall p | p in selection'
      ensures exists j :: 0 <= j < |next| && next[j].pallet == p
    {
      if p in selection {
        var j :| 0 <= j < |rows| && rows[j].pallet == p;
        assert next[j].pallet == p;
      } else {
        assert next[|rows|].pallet == p;
      }
    }
  }

  method CheckUnknown(selection: map<string, Choice>, listing: seq<(string, string)>) returns (unknown: bool)
    ensures unknown <==> exists n :: UnknownExtrinsic(selection, listing, n)
  {
    var pending := selection.Keys;
    while pending != {}
      invariant pending <= selection.Keys
      invariant forall p, n :: p in selection.Keys - pending && n in selection[p].names ==> !UnknownExtrinsic(selection, listing, n)
      decreases pending
    {
      var p :| p in pending;
      var names := selection[p].names;
      for k := 0 to |names|
        invariant forall n :: n in names[..k] ==> !UnknownExtrinsic(selection, listing, n)
      {
        if names[k] != "*" && forall q :: q in selection ==> (q, names[k]) !in listing {
          assert UnknownExtrinsic(selection, listing, names[k]);
          return true;
        }
      }
      assert names[..|names|] == names;
      pending := pending - {p};
    }
    return false;
  }

  method MatchRows(selection: map<string, Choice>, listing: seq<(string, string)>) returns (out: seq<Row>)
    requires forall p :: p in selection ==> selection[p].pallet == p
    ensures BenchmarkRows(selection, listing, out)
  {
    var order := SortedKeys(selection.Keys);
    out := [];
    for i := 0 to |order|
      invariant EmittedUpTo(selection, listing, order, i, out)
    {
      assert order[i] in order;
      var c := selection[order[i]];
      if Matched(c, listing) != [] {
        RowIsEmitted(selection, listing, order, i, out);
        out := out + [RunOf(c, listing)];
      } else {
        RowIsSkipped(selection, listing, order, i, out);
      }
    }
    AllEmitted(selection, listing, order, out);
  }

  /** The rows of the first `i` pallets of `order`. */
  ghost predicate EmittedUpTo(selection: map<string, Choice>, listing: seq<(string, string)>, order: seq<string>, i: nat, out: seq<Row>) {
    i <= |order| && Ascending(Pallets(out)) && OnlyRuns(selection, listing, order[..i], out) && AllRuns(selection, listing, order[..i], out)
  }

  ghost predicate OnlyRuns(selection: map<string, Choice>, listing: seq<(string, string)>, done: seq<string>, out: seq<Row>) {
    forall row :: row in out ==> row.pallet in done && IsRun(selection, listing, row)
  }

  ghost predicate AllRuns(selection: map<string, Choice>, listing: seq<(string, string)>, done: seq<string>, out: seq<Row>) {
    forall p :: p in done && p in selection && Matched(selection[p], listing) != [] ==> RunOf(selection[p], listing) in out
  }

  lemma RowIsEmitted(selection: map<string, Choice>, listing: seq<(string, string)>, order: seq<string>, i: nat, out: seq<Row>)
    requires i < |order| && EmittedUpTo(selection, listing, order, i, out) && Ascending(order) && order[i] in selection
    requires selection[order[i]].pallet == order[i] && Matched(selection[order[i]], listing) != []
    ensures EmittedUpTo(selection, listing, order, i + 1, out + [RunOf(selection[order[i]], listing)])
  {
    var row := RunOf(selection[order[i]], listing);
    assert forall j :: 0 <= j < |out| ==> out[j] in out;
    AppendAscends(out, row, order, i);
    assert order[..i + 1] == order[..i] + [order[i]];
    RunsGrow(selection, listing, order[..i], order[i], out, row);
  }

  lemma RunsGrow(selection: map<string, Choice>, listing: seq<(string, string)>, done: seq<string>, p: string, out: seq<Row>, row: Row)
    requires OnlyRuns(selection, listing, done, out) && AllRuns(selection, listing, done, out)
    requires row.pallet == p && IsRun(selection, listing, row)
    ensures OnlyRuns(selection, listing, done + [p], out + [row]) && AllRuns(selection, listing, done + [p], out + [row])
  {
  }

  lemma RowIsSkipped(selection: map<string, Choice>, listing: seq<(string, string)>, order: seq<string>, i: nat, out: seq<Row>)
    requires i < |order| && EmittedUpTo(selection, listing, order, i, out) && order[i] in selection
    requires Matched(selection[order[i]], listing) == []
    ensures EmittedUpTo(selection, listing, order, i + 1, out)
  {
    assert order[..i + 1] == order[..i] + [order[i]];
  }

  lemma AllEmitted(selection: map<string, Choice>, listing: seq<(string, string)>, order: seq<string>, out: seq<Row>)
    requires EmittedUpTo(selection, listing, order, |order|, out) && forall n :: n in order <==> n in selection.Keys
    ensures BenchmarkRows(selection, listing, out)
  {
    assert order[..|order|] == order;
    assert forall j :: 0 <= j < |out| ==> out[j] in out;
  }

  /** `sorted` of the dictionary's keys. */
  method SortedKeys(keys: set<string>) returns (order: seq<string>)
    ensures Ascending(order) && forall n :: n in order <==> n in keys
  {
    var pending, listed := keys, [];
    while pending != {}
      invariant pending <= keys && forall n :: n in listed <==> n in keys - pending
      decreases pending
    {
      var n :| n in pending;
      pending, listed := pending - {n}, listed + [n];
    }
    order := SortedUnique(listed);
  }

  lemma AppendAscends(out: seq<Row>, row: Row, order: seq<string>, i: nat)
    requires Ascending(order) && i < |order| && row.pallet == order[i]
    requires Ascending(Pallets(out)) && forall j :: 0 <= j < |out| ==> out[j].pallet in order[..i]
    ensures Ascending(Pallets(out + [row]))
  {
  }

  // ----- Both stages together ------------------------------------------------------------

  /** The extrinsic is run by one of the emitted rows. */
  ghost predicate Covered(out: seq<Row>, n: string) {
    exists row :: row in out && n in NamesOf(row)
  }

  /** The selectors of an emitted row, read back, are what its pallet runs. */
  lemma EmittedNames(c: Choice, listing: seq<(string, string)>)
    requires Normalised(c.names, false) && Matched(c, listing) != []
    ensures NamesOf(RunOf(c, listing)) == Matched(c, listing)
    ensures c.names != STAR ==>
              forall n :: n in Matched(c, listing) <==> n in c.names && (c.pallet, n) in listing
  {
    ListedMembers(c.names, listing, c.pallet);
    if c.names != STAR {
      var matched := Matched(c, listing);
      forall i | 0 <= i < |matched|
        ensures IsName(matched[i], false)
      {
        assert matched[i] in c.names;
      }
    }
    RoundTrip(Matched(c, listing), false);
  }

  /** Which pallets get a row, and what it says: one that asks for everything is run as `*`; another
      is run exactly when it lists something it asks for, with just those extrinsics. */
  lemma RowsAre(selection: map<string, Choice>, listing: seq<(string, string)>, out: seq<Row>, p: string)
    requires BenchmarkRows(selection, listing, out) && NormalChoices(selection) && p in selection
    ensures selection[p].names == ["*"] ==> Row(p, selection[p].path, "*") in out
    ensures (exists row :: row in out && row.pallet == p) <==>
            selection[p].names == ["*"] || exists n :: n in selection[p].names && (p, n) in listing
    ensures forall row :: row in out && row.pallet == p ==>
              row.path == selection[p].path &&
              (selection[p].names != ["*"] ==> forall n :: n in NamesOf(row) <==> n in selection[p].names && (p, n) in listing)
  {
    var c := selection[p];
    ListedMembers(c.names, listing, p);
    if Matched(c, listing) != [] {
      EmittedNames(c, listing);
      assert RunOf(c, listing) in out && RunOf(c, listing).pallet == p;
      assert Matched(c, listing)[0] in Matched(c, listing);
    }
  }

  /** Every row that is run belongs to a selected row: same pallet, same weights file, and no
      extrinsic that the selected row does not ask for. */
  lemma RunsAreSelected(rows: seq<Row>, selection: map<string, Choice>, listing: seq<(string, string)>, out: seq<Row>, row: Row)
    requires ValidSelection(rows) && Chosen(rows, selection) && BenchmarkRows(selection, listing, out) && row in out
    ensures exists i :: 0 <= i < |rows| && rows[i].pallet == row.pallet && rows[i].path == row.path &&
              forall n :: n in NamesOf(row) ==> n in NamesOf(rows[i])
  {
    assert IsRun(selection, listing, row);
    var i :| 0 <= i < |rows| && rows[i].pallet == row.pallet;
    var c := selection[row.pallet];
    assert ValidRow(rows[i]) && c == ChoiceOf(rows[i]);
    ParsedIsNormalised(rows[i].selectors, false);
    EmittedNames(c, listing);
  }

  ghost predicate NormalChoices(selection: map<string, Choice>) {
    forall p :: p in selection ==> Normalised(selection[p].names, false) && selection[p].pallet == p
  }

  /** An explicit extrinsic is run exactly when a pallet that asks for it lists it itself. */
  lemma CoveredIff(selection: map<string, Choice>, listing: seq<(string, string)>, out: seq<Row>, n: string)
    requires BenchmarkRows(selection, listing, out) && NormalChoices(selection) && n != "*"
    ensures Covered(out, n) <==> exists p :: p in selection && n in selection[p].names && (p, n) in listing
  {
    if Covered(out, n) {
      var row :| row in out && n in NamesOf(row);
      var c := selection[row.pallet];
      EmittedNames(c, listing);
      assert n in c.names && (c.pallet, n) in listing;
    }
    if p :| p in selection && n in selection[p].names && (p, n) in listing {
      var c := selection[p];
      ListedMembers(c.names, listing, c.pallet);
      assert n in Matched(c, listing);
      EmittedNames(c, listing);
      assert RunOf(c, listing) in out;
    }
  }

  /** Every explicit pair that is emitted is in the runtime's listing. */
  lemma EmittedIsListed(selection: map<string, Choice>, listing: seq<(string, string)>, out: seq<Row>, row: Row, n: string)
    requires BenchmarkRows(selection, listing, out) && NormalChoices(selection)
    requires row in out && n in NamesOf(row) && n != "*"
    ensures (row.pallet, n) in listing
  {
    EmittedNames(selection[row.pallet], listing);
  }

  /** On the rows of `select_pallets`, which all carry the same selectors, passing the checks
      means that every explicitly requested extrinsic is run by some row. */
  lemma PipelineCovers(listed: seq<(string, string)>, requested: seq<string>, names: seq<string>, rows: seq<Row>,
                       selection: map<string, Choice>, listing: seq<(string, string)>, out: seq<Row>, n: string)
    requires Normalised(names, false) && PalletRows(listed, requested, Join(names), rows) && rows != []
    requires Chosen(rows, selection) && BenchmarkRows(selection, listing, out) && Runnable(selection, listing)
    requires n in names && n != "*"
    ensures Covered(out, n)
  {
    RoundTrip(names, false);
    forall p | p in selection
      ensures selection[p].names == names && selection[p].pallet == p
    {
      var i :| 0 <= i < |rows| && rows[i].pallet == p;
      assert rows[i] in rows;
    }
    assert rows[0].pallet in selection;
    assert !UnknownExtrinsic(selection, listing, n);
    CoveredIff(selection, listing, out, n);
  }

  /** The rows of `select_pallets` are always a valid selection for the second stage. */
  lemma PalletRowsAreValid(listed: seq<(string, string)>, requested: seq<string>, names: seq<string>, rows: seq<Row>)
    requires ValidListing(listed) && Normalised(names, false) && PalletRows(listed, requested, Join(names), rows)
    ensures ValidSelection(rows)
  {
    RoundTrip(names, false);
    forall i | 0 <= i < |rows|
      ensures ValidRow(rows[i])
    {
      var row := rows[i];
      assert row in rows && row == Row(row.pallet, row.path, Join(names));
      assert (row.pallet, row.path) in listed;
    }
    forall i, j | 0 <= i < j < |rows|
      ensures rows[i].pallet != rows[j].pallet
    {
      assert Less(Pallets(rows)[i], Pallets(rows)[j]);
      LessIrreflexive(rows[i].pallet);
    }
  }

  /** Rows that carry different selectors can pass every check, so that `select_benchmarks`
      succeeds, and still lose a request: `x` asks for `b`, only `y` lists `b`, `y` asks for `c`. */
  lemma MixedSelectorsCanLose(x: Row, y: Row, a: string, b: string, c: string,
                              selection: map<string, Choice>, listing: seq<(string, string)>, out: seq<Row>)
    requires ValidRow(x) && ValidRow(y) && x.pallet != y.pallet && NamesOf(x) == [a, b] && NamesOf(y) == [c]
    requires b != c && IsName(a, false) && IsName(b, false) && IsName(c, false)
    requires listing == [(x.pallet, a), (y.pallet, b), (y.pallet, c)]
    requires Chosen([x, y], selection) && BenchmarkRows(selection, listing, out)
    ensures ValidSelection([x, y]) && ValidRegistry(listing) && Runnable(selection, listing)
    ensures b in NamesOf(x) && !Covered(out, b)
  {
    TwoAreValid(x, y);
    ThreeAreValid(listing[0], listing[1], listing[2]);
    TwoChoices(x, y, selection);
    TwoAreNormal(x, y, selection);
    TwoAreRunnable(x, y, a, b, c, selection, listing);
    TwoLose(x, y, a, b, c, selection, listing, out);
  }

  lemma TwoAreValid(x: Row, y: Row)
    requires ValidRow(x) && ValidRow(y) && x.pallet != y.pallet
    ensures ValidSelection([x, y])
  {
  }

  lemma ThreeAreValid(p: (string, string), q: (string, string), r: (string, string))
    requires IsName(p.0, false) && IsName(p.1, false) && IsName(q.0, false) && IsName(q.1, false)
    requires IsName(r.0, false) && IsName(r.1, false)
    ensures ValidRegistry([p, q, r])
  {
  }

  lemma TwoChoices(x: Row, y: Row, selection: map<string, Choice>)
    requires x.pallet != y.pallet && Chosen([x, y], selection)
    ensures selection == map[x.pallet := ChoiceOf(x), y.pallet := ChoiceOf(y)]
  {
    var rows, cx, cy := [x, y], ChoiceOf(x), ChoiceOf(y);
    assert rows[0].pallet in selection && selection[rows[0].pallet] == cx;
    assert rows[1].pallet in selection && selection[rows[1].pallet] == cy;
    forall p | p in selection
      ensures p == x.pallet || p == y.pallet
    {
      var i :| 0 <= i < |rows| && rows[i].pallet == p;
      assert i == 0 || i == 1;
    }
    TwoKeys(selection, x.pallet, y.pallet);
  }

  lemma TwoKeys(selection: map<string, Choice>, p: string, q: string)
    requires p in selection && q in selection && forall k :: k in selection ==> k == p || k == q
    ensures selection == map[p := selection[p], q := selection[q]]
  {
  }

  lemma NamesDiffer(row: Row, a: string, b: string)
    requires ValidRow(row) && NamesOf(row) == [a, b]
    ensures a != b
  {
    ParsedIsNormalised(row.selectors, false);
    assert Less([a, b][0], [a, b][1]);
    LessIrreflexive(a);
  }

  lemma TwoLose(x: Row, y: Row, a: string, b: string, c: string,
                selection: map<string, Choice>, listing: seq<(string, string)>, out: seq<Row>)
    requires ValidRow(x) && x.pallet != y.pallet && NamesOf(x) == [a, b] && NamesOf(y) == [c] && b != c && IsName(b, false)
    requires selection == map[x.pallet := ChoiceOf(x), y.pallet := ChoiceOf(y)] && NormalChoices(selection)
    requires listing == [(x.pallet, a), (y.pallet, b), (y.pallet, c)] && BenchmarkRows(selection, listing, out)
    ensures !Covered(out, b)
  {
    NamesDiffer(x, a, b);
    NamesAreTokens(b, false);
    CoveredIff(selection, listing, out, b);
    assert (x.pallet, b) !in listing && b !in selection[y.pallet].names;
  }

  lemma TwoAreNormal(x: Row, y: Row, selection: map<string, Choice>)
    requires ValidRow(x) && ValidRow(y) && selection == map[x.pallet := ChoiceOf(x), y.pallet := ChoiceOf(y)]
    ensures NormalChoices(selection)
  {
    ParsedIsNormalised(x.selectors, false);
    ParsedIsNormalised(y.selectors, false);
  }

  lemma TwoAreRunnable(x: Row, y: Row, a: string, b: string, c: string,
                       selection: map<string, Choice>, listing: seq<(string, string)>)
    requires x.pallet != y.pallet && NamesOf(x) == [a, b] && NamesOf(y) == [c] && IsName(a, false)
    requires selection == map[x.pallet := ChoiceOf(x), y.pallet := ChoiceOf(y)]
    requires listing == [(x.pallet, a), (y.pallet, b), (y.pallet, c)]
    ensures Runnable(selection, listing)
  {
    assert listing[0] == (x.pallet, a) && listing[1] == (y.pallet, b) && listing[2] == (y.pallet, c);
    assert Registered(listing, x.pallet) && Registered(listing, y.pallet);
    ListedMembers([a, b], listing, x.pallet);
    assert a in Matched(selection[x.pallet], listing);
    assert forall n :: !UnknownExtrinsic(selection, listing, n);
  }
}
