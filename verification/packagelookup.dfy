/** What code finds of a stored package list: a name under its section, with the address that its line sets. */
module PackageLookup {
  import opened Packages
  import opened PackageAcceptance
  import opened PackageLaws
  import opened Strings
  import opened Wrappers

  /** `is_module` and `is_script`: the type octet of a row is that of the section. */
  predicate Under(v: string, kind: Kind) {
    v != "" && |v| >= 3 && v[|v| - 3] == KindByte(kind)
  }

  /** The address that an import of `name` under a section is taken from, if there is one. */
  function Found(packages: map<string, string>, name: string, kind: Kind): Option<string> {
    if name in packages && Under(packages[name], kind) then Some(CString(packages[name])) else None
  }

  /** The listing of a package for the browser: its address, and its type, which is -1 for one under no section. */
  function Listing(v: string): Option<(string, int)> {
    if |v| < 4 then None else Some((v[..|v| - 4], v[|v| - 3] as int - 1))
  }

  function TypeNumber(kind: Kind): int {
    match kind case Syntax => -1 case Module => 0 case Script => 1
  }

  ghost predicate SetAt(lines: seq<string>, k: nat, name: string, url: string, kind: Kind) {
    k < |lines| && Sets(lines[k], name, url) && Section(lines, k) == kind
  }

  lemma PackageValue(name: string, url: string, kind: Kind, n: nat)
    requires '\0' !in url
    ensures var v := Value(Package(name, url, kind, n));
            && (forall k :: Under(v, k) <==> k == kind) && CString(v) == url
            && Listing(v) == Some((url, TypeNumber(kind)))
  {
    var v := Value(Package(name, url, kind, n));
    var tail := [KindByte(kind)] + Be16(n);
    assert v == url + "\0" + tail;
    CStringUpTo(url, tail);
    assert v[|v| - 3] == KindByte(kind) && v[..|v| - 4] == url;
    KindOctets(kind);
  }

  lemma KindOctets(kind: Kind)
    ensures KindByte(kind) as int == TypeNumber(kind) + 1 && forall k :: KindByte(k) == KindByte(kind) <==> k == kind
  {
  }

  /** Row by row: a package is stored under its name. */
  lemma StoredAt(lines: seq<string>, parse: string -> Url, k: nat)
    requires ReadLines(INITIAL, lines, parse).Ok? && k < |lines| <= 0xFFFF
    ensures var rows := ReadLines(INITIAL, lines, parse).value.rows;
            && |rows| == |lines| && RowsGood(ReadLines(INITIAL, lines, parse).value)
            && Key(rows[k]) in Stored(rows) && Stored(rows)[Key(rows[k])] == Value(rows[k])
  {
    hide *;
    InitialIsGood();
    ReadLinesGood(INITIAL, lines, parse);
    RowNumber(lines, parse);
    var st := ReadLines(INITIAL, lines, parse).value;
    StoredRows(st, |st.rows|);
    assert st.rows[..|st.rows|] == st.rows;
  }

  lemma InitialIsGood()
    ensures RowsGood(INITIAL)
  {
  }

  lemma RowNumber(lines: seq<string>, parse: string -> Url)
    requires ReadLines(INITIAL, lines, parse).Ok?
    ensures |ReadLines(INITIAL, lines, parse).value.rows| == |lines|
  {
    AcceptedExactly(lines, parse);
    hide *;
  }

  /** A name in the store is that of a package, if it does not start with NUL. */
  lemma NameOf(lines: seq<string>, parse: string -> Url, name: string) returns (k: nat)
    requires ReadLines(INITIAL, lines, parse).Ok? && |lines| <= 0xFFFF
    requires name in Stored(ReadLines(INITIAL, lines, parse).value.rows) && (name == "" || name[0] != '\0')
    ensures k < |lines| && |ReadLines(INITIAL, lines, parse).value.rows| == |lines|
    ensures var row := ReadLines(INITIAL, lines, parse).value.rows[k]; row.Package? && row.name == name
  {
    hide *;
    InitialIsGood();
    ReadLinesGood(INITIAL, lines, parse);
    RowNumber(lines, parse);
    var st := ReadLines(INITIAL, lines, parse).value;
    StoredRows(st, |st.rows|);
    assert st.rows[..|st.rows|] == st.rows;
    k :| 0 <= k < |st.rows| && name == Key(st.rows[k]);
    TextKey(st.rows[k]);
  }

  lemma TextKey(r: Row)
    ensures if r.Text? then Key(r) != "" && Key(r)[0] == '\0' else Key(r) == r.name
  {
  }

  /** What the rows of an accepted list say of a line. */
  lemma RowSets(lines: seq<string>, parse: string -> Url, k: nat)
    requires ReadLines(INITIAL, lines, parse).Ok? && k < |lines|
    ensures var rows := ReadLines(INITIAL, lines, parse).value.rows;
            && |rows| == |lines| && (rows[k].Package? <==> Setter(lines[k], parse))
            && (rows[k].Package? ==> Sets(lines[k], rows[k].name, rows[k].url) && rows[k].kind == Section(lines, k))
  {
    AcceptedExactly(lines, parse);
    hide *;
  }

  lemma RowOfSetter(lines: seq<string>, parse: string -> Url, k: nat, name: string, url: string)
    requires ReadLines(INITIAL, lines, parse).Ok? && k < |lines| && Sets(lines[k], name, url)
    ensures var rows := ReadLines(INITIAL, lines, parse).value.rows;
            && |rows| == |lines|
            && rows[k] == Package(name, url, Section(lines, k), rows[k].number)
  {
    RowSets(lines, parse, k);
    SettingIsSetter(lines, parse, k, name, url);
    var row := ReadLines(INITIAL, lines, parse).value.rows[k];
    SetsWhat(lines[k], name, url);
    SetsWhat(lines[k], row.name, row.url);
    hide *;
  }

  /** An accepted line that sets anything sets it to a web address. */
  lemma SettingIsSetter(lines: seq<string>, parse: string -> Url, k: nat, name: string, url: string)
    requires ReadLines(INITIAL, lines, parse).Ok? && k < |lines| && Sets(lines[k], name, url)
    ensures Setter(lines[k], parse)
  {
    AcceptedExactly(lines, parse);
    assert LineOk(lines[k], parse);
    MatchExactly(lines[k], name, url);
    NamesAre(name);
    assert lines[k][0] == name[0] && NameChar(name[0]);
    hide ReadLines, Setter, Match;
  }

  /**
   After an accepted list of at most 65535 lines whose addresses have no NUL in them is stored, a name is found under a
   section exactly if a line in that section sets it, and then with the address that the line sets it to.
   */
  lemma FoundExactly(lines: seq<string>, parse: string -> Url, name: string, kind: Kind, url: string)
    requires ReadLines(INITIAL, lines, parse).Ok? && |lines| <= 0xFFFF && (name == "" || name[0] != '\0')
    requires forall k, n, u :: 0 <= k < |lines| && Sets(lines[k], n, u) ==> '\0' !in u
    ensures var packages := Stored(ReadLines(INITIAL, lines, parse).value.rows);
            Found(packages, name, kind) == Some(url) <==> exists k :: SetAt(lines, k, name, url, kind)
  {
    hide *;
    var packages := Stored(ReadLines(INITIAL, lines, parse).value.rows);
    if k :| SetAt(lines, k, name, url, kind) {
      FoundOne(lines, parse, k, name, kind, url);
    } else if Found(packages, name, kind) == Some(url) {
      FoundIn(packages, name, kind);
      var k := NameOf(lines, parse, name);
      RowSets(lines, parse, k);
      var row := ReadLines(INITIAL, lines, parse).value.rows[k];
      SetAtRow(lines, k, name, row.url);
      FoundOne(lines, parse, k, name, row.kind, row.url);
      FoundOnce(packages, name, kind, row.kind);
    }
  }

  lemma SetAtRow(lines: seq<string>, k: nat, name: string, url: string)
    requires k < |lines|
    ensures SetAt(lines, k, name, url, Section(lines, k)) <==> Sets(lines[k], name, url)
  {
    hide Sets;
  }

  lemma FoundIn(packages: map<string, string>, name: string, kind: Kind)
    requires Found(packages, name, kind).Some?
    ensures name in packages
  {
  }

  /** A name is under one section, and has one address. */
  lemma FoundOnce(packages: map<string, string>, name: string, kind: Kind, kind': Kind)
    requires Found(packages, name, kind).Some? && Found(packages, name, kind').Some?
    ensures kind == kind'
  {
    KindOctets(kind);
  }

  lemma FoundOne(lines: seq<string>, parse: string -> Url, k: nat, name: string, kind: Kind, url: string)
    requires ReadLines(INITIAL, lines, parse).Ok? && |lines| <= 0xFFFF && SetAt(lines, k, name, url, kind)
    requires forall k, n, u :: 0 <= k < |lines| && Sets(lines[k], n, u) ==> '\0' !in u
    ensures var packages := Stored(ReadLines(INITIAL, lines, parse).value.rows);
            && Found(packages, name, kind) == Some(url)
            && name in packages && Listing(packages[name]) == Some((url, TypeNumber(kind)))
  {
    RowOfSetter(lines, parse, k, name, url);
    StoredAt(lines, parse, k);
    var row := ReadLines(INITIAL, lines, parse).value.rows[k];
    TextKey(row);
    PackageValue(name, url, kind, row.number);
    hide ReadLines, Stored, Value, Key, Sets, Section, Under, CString, Listing, RowsGood, TypeNumber;
  }
}
