/** What storing an accepted list does to the cache, told from its lines. */
module PackageCleanup {
  import opened Packages
  import opened PackageAcceptance
  import opened PackageLaws

  /** The URL library finds a web address only in a string that begins with its scheme. */
  ghost predicate WebStarts(parse: string -> Url) {
    forall u :: parse(u) == Web ==> u != "" && (u[0] == 'h' || u[0] == 'H')
  }

  /** The cache keys of the packages that the lines put under a section. */
  ghost function ListedKeys(lines: seq<string>, parse: string -> Url): set<string> {
    set k | 0 <= k < |lines| && Setter(lines[k], parse) && Section(lines, k) != Syntax :: SetUrl(lines[k]) + "\0"
  }

  /** A comment whose fourth octet from the end is NUL, and whose third is not. */
  predicate OddComment(line: string) {
    line != "" && line[0] == '#' && Lookalike(Text(line, 1))
  }

  predicate ShortComment(line: string) {
    line != "" && line[0] == '#' && |line| < 3
  }

  /** The cache less exactly the NUL-ended keys that no line lists under a section. */
  ghost function LessUnlisted(cache: map<string, string>, lines: seq<string>, parse: string -> Url)
    : map<string, string>
  {
    map k | k in cache && (IsObject(k) ==> k in ListedKeys(lines, parse)) :: cache[k]
  }

  /** The rows of an accepted list, line by line. */
  lemma RowsOfLines(lines: seq<string>, parse: string -> Url, k: nat)
    requires ReadLines(INITIAL, lines, parse).Ok? && k < |lines|
    ensures var rows := ReadLines(INITIAL, lines, parse).value.rows;
            && |rows| == |lines|
            && if Setter(lines[k], parse)
               then rows[k].Package? && rows[k].url == SetUrl(lines[k]) && rows[k].kind == Section(lines, k)
               else rows[k].Text? && rows[k].text == lines[k]
                    && (lines[k] == "" || lines[k][0] == '#' || lines[k] == SCRIPTS || lines[k] == MODULES)
  {
    AcceptedExactly(lines, parse);
    InitialGood();
    ReadLinesGood(INITIAL, lines, parse);
    hide ReadLines, ReadLine, Match, Section, Setter, SetUrl, RowsGood;
    var rows := ReadLines(INITIAL, lines, parse).value.rows;
    assert RowLine(rows[0 + k]) == lines[k];
    assert LineOk(lines[k], parse);
    if rows[k].Package? {
      SetsWhat(lines[k], rows[k].name, rows[k].url);
    }
  }

  /** The type octet of some row is read from before it exactly if there is a comment of one or two octets. */
  lemma ShortRowsOfLines(lines: seq<string>, parse: string -> Url)
    requires ReadLines(INITIAL, lines, parse).Ok?
    ensures NoShortRows(ReadLines(INITIAL, lines, parse).value.rows)
        <==> forall k :: 0 <= k < |lines| ==> !ShortComment(lines[k])
  {
    AcceptedExactly(lines, parse);
    hide ReadLines, ReadLine, Match, Section, Setter, Sets, SetName, SetUrl, ListOk;
    var rows := ReadLines(INITIAL, lines, parse).value.rows;
    forall k | 0 <= k < |lines|
      ensures ShortComment(lines[k]) <==> rows[k].Text? && rows[k].text != "" && |rows[k].text| < 3
    {
      RowsOfLines(lines, parse, k);
      HeaderSetsNot(lines[k], parse);
    }
    if !NoShortRows(rows) {
      var r :| r in rows && r.Text? && r.text != "" && |r.text| < 3;
      var k :| 0 <= k < |rows| && rows[k] == r;
      assert ShortComment(lines[k]);
    } else {
      forall k | 0 <= k < |lines| ensures !ShortComment(lines[k]) {
        assert rows[k] in rows;
      }
    }
  }

  /** A text row starts like a comment or a header, and the address of a package does not. */
  predicate RowTold(r: Row) {
    if r.Text? then r.text != "" ==> r.text[0] == '#' || r.text[0] == '['
    else r.url != "" && r.url[0] != '#' && r.url[0] != '['
  }

  lemma RowCount(lines: seq<string>, parse: string -> Url)
    requires ReadLines(INITIAL, lines, parse).Ok?
    ensures |ReadLines(INITIAL, lines, parse).value.rows| == |lines|
  {
    AcceptedExactly(lines, parse);
    hide ReadLines, ReadLine, Match, Section, Setter, Sets, ListOk;
  }

  /** The look-alikes among the rows are the odd comments among the lines. */
  lemma LookalikeLines(lines: seq<string>, rows: seq<Row>, parse: string -> Url)
    requires ReadLines(INITIAL, lines, parse).Ok? && WebStarts(parse)
    requires rows == ReadLines(INITIAL, lines, parse).value.rows
    ensures (forall r :: r in rows ==> !Lookalike(r)) <==> forall k :: 0 <= k < |lines| ==> !OddComment(lines[k])
  {
    hide *;
    RowCount(lines, parse);
    forall k | 0 <= k < |lines| ensures Lookalike(rows[k]) <==> OddComment(lines[k]) {
      RowAndLine(lines, parse, k);
    }
    if forall r :: r in rows ==> !Lookalike(r) {
      forall k | 0 <= k < |lines| ensures !OddComment(lines[k]) {
        assert rows[k] in rows;
      }
    }
  }

  lemma RowsTold(lines: seq<string>, rows: seq<Row>, parse: string -> Url)
    requires ReadLines(INITIAL, lines, parse).Ok? && WebStarts(parse)
    requires rows == ReadLines(INITIAL, lines, parse).value.rows
    ensures forall r :: r in rows ==> RowTold(r)
  {
    hide *;
    RowCount(lines, parse);
    forall k | 0 <= k < |rows| ensures RowTold(rows[k]) {
      RowAndLine(lines, parse, k);
    }
  }

  /** Row by row: what counts as listed, and what looks like it. */
  lemma RowAndLine(lines: seq<string>, parse: string -> Url, k: nat)
    requires ReadLines(INITIAL, lines, parse).Ok? && k < |lines| && WebStarts(parse)
    ensures var rows := ReadLines(INITIAL, lines, parse).value.rows;
            && |rows| == |lines|
            && (rows[k].Package? <==> Setter(lines[k], parse))
            && (rows[k].Package? ==> rows[k].url == SetUrl(lines[k]) && rows[k].kind == Section(lines, k))
            && (Lookalike(rows[k]) <==> OddComment(lines[k])) && RowTold(rows[k])
  {
    RowsOfLines(lines, parse, k);
    HeaderSetsNot(lines[k], parse);
    if Setter(lines[k], parse) {
      SetterSets(lines[k], parse);
    }
    RowAlone(ReadLines(INITIAL, lines, parse).value.rows[k], lines[k], parse, Setter(lines[k], parse));
    hide *;
  }

  lemma RowAlone(row: Row, line: string, parse: string -> Url, setter: bool)
    requires WebStarts(parse) && (setter ==> line != "" && line[0] != '#')
    requires if setter then row.Package? && parse(row.url) == Web
             else row.Text? && row.text == line && (line == "" || line[0] == '#' || line == SCRIPTS || line == MODULES)
    ensures (Lookalike(row) <==> OddComment(line)) && RowTold(row)
  {
  }

  lemma ListedIsKeys(lines: seq<string>, parse: string -> Url)
    requires ReadLines(INITIAL, lines, parse).Ok? && WebStarts(parse)
    ensures Listed(ReadLines(INITIAL, lines, parse).value.rows) == ListedKeys(lines, parse)
  {
    AcceptedExactly(lines, parse);
    hide ReadLines, ReadLine, Match, Section, Setter, Sets, SetName, SetUrl, ListOk;
    var rows := ReadLines(INITIAL, lines, parse).value.rows;
    forall k | 0 <= k < |lines| {
      RowAndLine(lines, parse, k);
    }
    forall key | key in Listed(rows) ensures key in ListedKeys(lines, parse) {
      var r :| r in rows && r.Package? && r.kind != Syntax && key == r.url + "\0";
      var k :| 0 <= k < |rows| && rows[k] == r;
      assert Setter(lines[k], parse) && Section(lines, k) != Syntax;
    }
    forall key | key in ListedKeys(lines, parse) ensures key in Listed(rows) {
      var k :| 0 <= k < |lines| && Setter(lines[k], parse) && Section(lines, k) != Syntax
             && key == SetUrl(lines[k]) + "\0";
      assert rows[k] in rows;
    }
  }

  /**
   Of an accepted list that the store takes, `SetPackages` leaves `Cleaned` of the cache. Told from the lines:
   whatever was cached, that is the cache less exactly the NUL-ended keys that no line lists under a section, if
   and only if there is no comment of the odd shape.
   */
  lemma SetCleansExactly(lines: seq<string>, parse: string -> Url)
    requires ReadLines(INITIAL, lines, parse).Ok? && WebStarts(parse)
    requires forall k :: 0 <= k < |lines| ==> !ShortComment(lines[k])
    ensures var rows := ReadLines(INITIAL, lines, parse).value.rows;
            && NoShortRows(rows)
            && ((forall cache :: Cleaned(cache, Urls(rows)) == LessUnlisted(cache, lines, parse))
                <==> forall k :: 0 <= k < |lines| ==> !OddComment(lines[k]))
  {
    hide *;
    ShortRowsOfLines(lines, parse);
    ListedIsKeys(lines, parse);
    var rows := ReadLines(INITIAL, lines, parse).value.rows;
    LookalikeLines(lines, rows, parse);
    RowsTold(lines, rows, parse);
    ToldRows(rows);
    forall cache ensures LessUnlisted(cache, lines, parse) == Exactly(cache, rows) {
      SameLess(cache, lines, rows, parse);
    }
    CleanedExactly(rows);
  }

  lemma SameLess(cache: map<string, string>, lines: seq<string>, rows: seq<Row>, parse: string -> Url)
    requires Listed(rows) == ListedKeys(lines, parse)
    ensures LessUnlisted(cache, lines, parse) == Exactly(cache, rows)
  {
    hide Listed, ListedKeys;
  }

  lemma ToldRows(rows: seq<Row>)
    requires forall r :: r in rows ==> RowTold(r)
    ensures forall r :: r in rows && r.Text? && r.text != "" ==> r.text[0] == '#' || r.text[0] == '['
    ensures forall r :: r in rows && r.Package? ==> r.url != "" && r.url[0] != '#' && r.url[0] != '['
  {
  }
}
