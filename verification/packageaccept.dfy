/** Which package lists are accepted, and what the first error of any other is. */
module PackageAcceptance {
  import opened Packages
  import opened Strings

  const SCRIPTS: string := "[scripts]"
  const MODULES: string := "[modules]"

  const MARKS := "_.@-"

  predicate IsName(name: string) {
    && name != ""
    && forall k :: 0 <= k < |name| ==> name[k] in LOWER || name[k] in UPPER || name[k] in DIGITS || name[k] in MARKS
  }

  /** The line is a name, an equals sign between two blanks, and the rest, which has no line end in it. */
  predicate Sets(line: string, name: string, url: string) {
    IsName(name) && url != "" && '\n' !in url && '\r' !in url && line == name + " = " + url
  }

  /** A line that sets a name to a web address. */
  ghost predicate Setter(line: string, parse: string -> Url) {
    exists name, url :: Sets(line, name, url) && parse(url) == Web
  }

  // ----- what the pattern matches -----

  lemma IsMark(c: char)
    ensures c in MARKS <==> c == '_' || c == '.' || c == '@' || c == '-'
  {
    assert MARKS[0] == '_' && MARKS[1] == '.' && MARKS[2] == '@' && MARKS[3] == '-';
  }

  lemma NameChars(c: char)
    ensures NameChar(c) <==> c in LOWER || c in UPPER || c in DIGITS || c in MARKS
  {
    IsLower(c);
    IsUpper(c);
    IsDigit(c);
    IsMark(c);
    hide LOWER, UPPER, DIGITS, MARKS;
  }

  lemma NamesAre(name: string)
    ensures IsName(name) <==> name != "" && forall k :: 0 <= k < |name| ==> NameChar(name[k])
  {
    forall k | 0 <= k < |name|
      ensures NameChar(name[k]) <==> name[k] in LOWER || name[k] in UPPER || name[k] in DIGITS || name[k] in MARKS
    {
      NameChars(name[k]);
    }
    hide NameChar, LOWER, UPPER, DIGITS, MARKS;
  }

  lemma {:induction false} NameEndOf(name: string, rest: string)
    requires (forall k :: 0 <= k < |name| ==> NameChar(name[k])) && (rest != "" ==> !NameChar(rest[0]))
    ensures NameEnd(name + rest) == |name|
  {
    if name == "" {
      assert "" + rest == rest;
    } else {
      assert (name + rest)[1..] == name[1..] + rest;
      NameEndOf(name[1..], rest);
    }
  }

  /** The pattern finds a setting in exactly the lines that are one, and its name and address. */
  lemma MatchExactly(line: string, name: string, url: string)
    ensures Match(line) == Setting(name, url) <==> Sets(line, name, url)
  {
    NamesAre(name);
    hide IsName;
    if Sets(line, name, url) {
      var rest := " = " + url;
      NameEndOf(name, rest);
      assert line == name + rest && line[|name|..|name| + 3] == " = " && line[|name| + 3..] == url;
    }
  }

  /** The name that a line sets, and what it sets it to, if it is a setting. */
  function SetName(line: string): string {
    if Match(line).Setting? then Match(line).name else ""
  }

  function SetUrl(line: string): string {
    if Match(line).Setting? then Match(line).url else ""
  }

  lemma SetsWhat(line: string, name: string, url: string)
    requires Sets(line, name, url)
    ensures SetName(line) == name && SetUrl(line) == url
  {
    MatchExactly(line, name, url);
  }

  lemma SetterSets(line: string, parse: string -> Url)
    requires Setter(line, parse)
    ensures Sets(line, SetName(line), SetUrl(line)) && parse(SetUrl(line)) == Web
  {
    var name, url :| Sets(line, name, url) && parse(url) == Web;
    SetsWhat(line, name, url);
  }

  /** Told by the pattern. */
  lemma SetterIsMatch(line: string, parse: string -> Url)
    ensures Setter(line, parse) <==>
              && line != "" && line[0] != '#' && line[0] != '['
              && Match(line).Setting? && parse(Match(line).url) == Web
  {
    var m := Match(line);
    if m.Setting? {
      MatchExactly(line, m.name, m.url);
      assert line[0] == m.name[0] && NameChar(m.name[0]);
    }
    if Setter(line, parse) {
      SetterSets(line, parse);
      MatchExactly(line, SetName(line), SetUrl(line));
    }
  }

  ghost predicate LineOk(line: string, parse: string -> Url) {
    line == "" || line[0] == '#' || line == SCRIPTS || line == MODULES || Setter(line, parse)
  }

  /** Two lines that do not go together: the same header, or the same name. */
  ghost predicate Clash(a: string, b: string, parse: string -> Url) {
    || (a == b && (a == SCRIPTS || a == MODULES))
    || (Setter(a, parse) && Setter(b, parse) && exists name, u, v :: Sets(a, name, u) && Sets(b, name, v))
  }

  lemma ClashOfSetters(a: string, b: string, parse: string -> Url)
    requires Setter(a, parse) && Setter(b, parse)
    ensures Clash(a, b, parse) <==> SetName(a) == SetName(b)
  {
    SetterSets(a, parse);
    SetterSets(b, parse);
    if name, u, v :| Sets(a, name, u) && Sets(b, name, v) {
      SetsWhat(a, name, u);
      SetsWhat(b, name, v);
    }
    HeaderSetsNot(a, parse);
    hide Sets, SetName, SetUrl;
  }

  lemma HeaderSetsNot(line: string, parse: string -> Url)
    ensures Setter(line, parse) ==> line != "" && line[0] != '#' && line != SCRIPTS && line != MODULES
  {
    SetterIsMatch(line, parse);
    hide Setter, Sets, SetName, SetUrl;
  }

  ghost predicate ListOk(lines: seq<string>, parse: string -> Url) {
    && (forall k :: 0 <= k < |lines| ==> LineOk(lines[k], parse))
    && (forall i, j :: 0 <= i < j < |lines| ==> !Clash(lines[i], lines[j], parse))
  }

  /** The section that line `n` stands in: that of the last header before it. */
  function Section(lines: seq<string>, n: nat): Kind
    requires n <= |lines|
  {
    if n == 0 then Syntax
    else if lines[n - 1] == SCRIPTS then Script
    else if lines[n - 1] == MODULES then Module
    else Section(lines, n - 1)
  }

  // ----- the state after the lines so far -----

  ghost predicate Known(st: State, lines: seq<string>, parse: string -> Url) {
    && |st.rows| == |lines|
    && (st.scripts <==> SCRIPTS in lines)
    && (st.modules <==> MODULES in lines)
    && st.kind == Section(lines, |lines|)
    && (forall name :: name in st.names <==>
        exists k :: 0 <= k < |lines| && Setter(lines[k], parse) && SetName(lines[k]) == name)
    && (forall k :: 0 <= k < |lines| && st.rows[k].Package? ==> st.rows[k].kind == Section(lines, k))
    && (forall k :: 0 <= k < |lines| ==> (st.rows[k].Package? <==> Setter(lines[k], parse)))
    && (forall k :: 0 <= k < |lines| && st.rows[k].Package? ==> Sets(lines[k], st.rows[k].name, st.rows[k].url))
  }

  lemma {:induction false} ReadLinesSnoc(st: State, lines: seq<string>, last: string, parse: string -> Url)
    ensures ReadLines(st, lines + [last], parse) ==
            match ReadLines(st, lines, parse) case Bad(e) => Bad(e) case Ok(next) => ReadLine(next, last, parse)
    decreases |lines|
  {
    hide ReadLine;
    if lines == [] {
      assert [last][1..] == [];
    } else {
      assert (lines + [last])[1..] == lines[1..] + [last];
      if ReadLine(st, lines[0], parse).Ok? {
        ReadLinesSnoc(ReadLine(st, lines[0], parse).value, lines[1..], last, parse);
      }
    }
  }

  lemma {:induction false} SectionPrefix(lines: seq<string>, last: string, n: nat)
    requires n <= |lines|
    ensures Section(lines + [last], n) == Section(lines, n)
  {
    if n > 0 {
      SectionPrefix(lines, last, n - 1);
    }
  }

  /** A line is refused exactly when it is bad or clashes with one before it. */
  ghost predicate Refused(lines: seq<string>, last: string, parse: string -> Url) {
    !LineOk(last, parse) || exists k :: 0 <= k < |lines| && Clash(lines[k], last, parse)
  }

  lemma TextAccepted(lines: seq<string>, last: string, parse: string -> Url)
    requires last == "" || last[0] == '#'
    ensures !Refused(lines, last, parse)
  {
    HeaderSetsNot(last, parse);
    hide Setter;
  }

  lemma HeaderRefused(lines: seq<string>, last: string, parse: string -> Url)
    requires last == SCRIPTS || last == MODULES
    ensures Refused(lines, last, parse) <==> last in lines
  {
    HeaderSetsNot(last, parse);
    hide Setter;
    if last in lines {
      var k :| 0 <= k < |lines| && lines[k] == last;
      assert Clash(lines[k], last, parse);
    }
  }

  lemma SetterRefused(st: State, lines: seq<string>, last: string, parse: string -> Url)
    requires Known(st, lines, parse) && Setter(last, parse)
    ensures Refused(lines, last, parse) <==> SetName(last) in st.names
  {
    HeaderSetsNot(last, parse);
    hide Section, Setter, SetName, SetUrl, Sets;
    forall k | 0 <= k < |lines| && Setter(lines[k], parse)
      ensures Clash(lines[k], last, parse) <==> SetName(lines[k]) == SetName(last)
    {
      ClashOfSetters(lines[k], last, parse);
    }
    if SetName(last) in st.names {
      var k :| 0 <= k < |lines| && Setter(lines[k], parse) && SetName(lines[k]) == SetName(last);
      assert Clash(lines[k], last, parse);
    }
  }

  /** One line and its row more. */
  lemma KnownSnoc(st: State, lines: seq<string>, last: string, row: Row, to: State, parse: string -> Url)
    requires Known(st, lines, parse) && to.rows == st.rows + [row]
    requires to.scripts == (st.scripts || last == SCRIPTS) && to.modules == (st.modules || last == MODULES)
    requires to.kind == if last == SCRIPTS then Script else if last == MODULES then Module else st.kind
    requires to.names == st.names + if Setter(last, parse) then {SetName(last)} else {}
    requires row.Package? <==> Setter(last, parse)
    requires row.Package? ==> row.kind == st.kind && Sets(last, row.name, row.url)
    ensures Known(to, lines + [last], parse)
  {
    hide Setter, Sets, SetName, SetUrl;
    var more := lines + [last];
    assert more[|lines|] == last && forall k :: 0 <= k < |lines| ==> more[k] == lines[k];
    SectionPrefix(lines, last, |lines|);
    forall k | 0 <= k < |more| && to.rows[k].Package? ensures to.rows[k].kind == Section(more, k) {
      SectionPrefix(lines, last, if k < |lines| then k else |lines|);
    }
    NamesSnoc(st, lines, last, to, parse);
  }

  lemma NamesSnoc(st: State, lines: seq<string>, last: string, to: State, parse: string -> Url)
    requires Known(st, lines, parse)
    requires to.names == st.names + if Setter(last, parse) then {SetName(last)} else {}
    ensures forall name :: name in to.names <==>
              exists k :: 0 <= k < |lines + [last]| && Setter((lines + [last])[k], parse) &&
                SetName((lines + [last])[k]) == name
  {
    hide Setter, Sets, SetName, SetUrl, Section;
    var more := lines + [last];
    forall name | name in to.names
      ensures exists k :: 0 <= k < |more| && Setter(more[k], parse) && SetName(more[k]) == name
    {
      if name in st.names {
        var k :| 0 <= k < |lines| && Setter(lines[k], parse) && SetName(lines[k]) == name;
        assert more[k] == lines[k];
      } else {
        assert more[|lines|] == last;
      }
    }
    forall k | 0 <= k < |more| && Setter(more[k], parse) ensures SetName(more[k]) in to.names {
      if k < |lines| {
        assert more[k] == lines[k];
      }
    }
  }

  /** What a line does, told by whether it is a setting. */
  lemma ReadLineIs(st: State, last: string, parse: string -> Url)
    ensures ReadLine(st, last, parse).Ok? <==>
              || last == "" || last[0] == '#'
              || (last == SCRIPTS && !st.scripts) || (last == MODULES && !st.modules)
              || (Setter(last, parse) && SetName(last) !in st.names)
    ensures Setter(last, parse) && SetName(last) !in st.names ==>
              ReadLine(st, last, parse) ==
                Ok(st.(names := st.names + {SetName(last)},
                       rows := st.rows + [Package(SetName(last), SetUrl(last), st.kind, |st.rows| + 1)]))
  {
    SetterIsMatch(last, parse);
    hide Match, Setter;
  }

  lemma ReadLineKnown(st: State, lines: seq<string>, last: string, parse: string -> Url)
    requires Known(st, lines, parse)
    ensures var r := ReadLine(st, last, parse);
            && (r.Bad? <==> Refused(lines, last, parse))
            && (r.Ok? ==> Known(r.value, lines + [last], parse))
  {
    hide Known, Setter, Sets, SetName, SetUrl, Section, Match;
    HeaderSetsNot(last, parse);
    if last == "" || last[0] == '#' {
      TextAccepted(lines, last, parse);
      KnownSnoc(st, lines, last, Text(last, |st.rows| + 1), AddText(st, last), parse);
    } else if last == SCRIPTS || last == MODULES {
      HeaderRead(st, lines, last, parse);
    } else {
      ReadLineIs(st, last, parse);
      hide ReadLine;
      if Setter(last, parse) {
        hide Refused;
        SetterRefused(st, lines, last, parse);
        SetterSets(last, parse);
        var name := SetName(last);
        var row := Package(name, SetUrl(last), st.kind, |st.rows| + 1);
        KnownSnoc(st, lines, last, row, st.(names := st.names + {name}, rows := st.rows + [row]), parse);
      }
    }
  }

  lemma HeaderRead(st: State, lines: seq<string>, last: string, parse: string -> Url)
    requires Known(st, lines, parse) && (last == SCRIPTS || last == MODULES)
    ensures var r := ReadLine(st, last, parse);
            && (r.Bad? <==> Refused(lines, last, parse))
            && (r.Ok? ==> Known(r.value, lines + [last], parse))
  {
    HeaderRefused(lines, last, parse);
    HeaderSetsNot(last, parse);
    hide Refused, Setter, Sets, SetName, SetUrl, Section, Match;
    var row := Text(last, |st.rows| + 1);
    var to := AddText(if last == SCRIPTS then st.(scripts := true, kind := Script)
                      else st.(modules := true, kind := Module), last);
    KnownSnoc(st, lines, last, row, to, parse);
    HeaderLine(st, lines, last, to, parse);
    hide Known, ReadLine;
  }

  lemma HeaderLine(st: State, lines: seq<string>, last: string, to: State, parse: string -> Url)
    requires Known(st, lines, parse) && (last == SCRIPTS || last == MODULES)
    requires to == AddText(if last == SCRIPTS then st.(scripts := true, kind := Script)
                           else st.(modules := true, kind := Module), last)
    ensures var r := ReadLine(st, last, parse); (r.Bad? <==> last in lines) && (r.Ok? ==> r.value == to)
  {
    hide Setter, Sets, SetName, SetUrl, Section, Match;
  }

  // ----- the whole list -----

  lemma ListSnoc(lines: seq<string>, last: string, parse: string -> Url)
    ensures ListOk(lines + [last], parse) <==> ListOk(lines, parse) && !Refused(lines, last, parse)
  {
    hide LineOk, Clash;
    var more := lines + [last];
    assert more[|lines|] == last && forall k :: 0 <= k < |lines| ==> more[k] == lines[k];
    if ListOk(more, parse) {
      forall k | 0 <= k < |lines| ensures LineOk(lines[k], parse) && !Clash(lines[k], last, parse) {
        assert more[k] == lines[k];
      }
      forall i, j | 0 <= i < j < |lines| ensures !Clash(lines[i], lines[j], parse) {
        assert more[i] == lines[i] && more[j] == lines[j];
      }
    }
  }

  function LineOf(e: Error): nat
    requires !e.Storage? && !e.Unread?
  {
    e.at
  }

  ghost predicate Verdict(lines: seq<string>, r: Outcome<State>, parse: string -> Url) {
    && (r.Ok? <==> ListOk(lines, parse))
    && (r.Ok? ==> Known(r.value, lines, parse))
    && (r.Bad? ==> !r.error.Storage? && !r.error.Unread? && 1 <= LineOf(r.error) <= |lines|
                   && ListOk(lines[..LineOf(r.error) - 1], parse) && !ListOk(lines[..LineOf(r.error)], parse))
  }

  lemma VerdictKept(lines: seq<string>, last: string, e: Error, parse: string -> Url)
    requires Verdict(lines, Bad(e), parse)
    ensures Verdict(lines + [last], Bad(e), parse)
  {
    hide ListOk, Known, Refused;
    ListSnoc(lines, last, parse);
    var n := LineOf(e);
    assert (lines + [last])[..n] == lines[..n] && (lines + [last])[..n - 1] == lines[..n - 1];
  }

  lemma VerdictNext(st: State, lines: seq<string>, last: string, parse: string -> Url)
    requires Verdict(lines, Ok(st), parse)
    ensures Verdict(lines + [last], ReadLine(st, last, parse), parse)
  {
    hide ListOk, Known, Refused, ReadLine;
    ListSnoc(lines, last, parse);
    ReadLineKnown(st, lines, last, parse);
    ErrorLine(st, lines, last, parse);
    var more := lines + [last];
    assert more[..|lines|] == lines && more[..|lines| + 1] == more;
  }

  /**
   A list is accepted if and only if each line is empty, a comment, a header or sets a name to
   a web address, no header comes twice and no name is set twice. Each package is then
   of the section of the last header before it. Of any other list the error is that of the
   first line that makes it so, with that line's number.
   */
  lemma {:induction false} AcceptedExactly(lines: seq<string>, parse: string -> Url)
    ensures var r := ReadLines(INITIAL, lines, parse);
            && (r.Ok? <==> ListOk(lines, parse))
            && (r.Ok? ==> |r.value.rows| == |lines| && forall k :: 0 <= k < |lines| ==>
                  && (r.value.rows[k].Package? <==> Setter(lines[k], parse))
                  && (r.value.rows[k].Package? ==>
                        && r.value.rows[k].kind == Section(lines, k)
                        && Sets(lines[k], r.value.rows[k].name, r.value.rows[k].url)))
            && (r.Bad? ==> !r.error.Storage? && !r.error.Unread? && 1 <= LineOf(r.error) <= |lines|
                           && ListOk(lines[..LineOf(r.error) - 1], parse) && !ListOk(lines[..LineOf(r.error)], parse))
  {
    hide ReadLines, ListOk, Setter, Sets, Section;
    Accepted(lines, parse);
  }

  lemma {:induction false} Accepted(lines: seq<string>, parse: string -> Url)
    ensures Verdict(lines, ReadLines(INITIAL, lines, parse), parse)
    decreases |lines|
  {
    hide ReadLine, ReadLines, Verdict;
    if lines == [] {
      NothingAccepted(parse);
    } else {
      var front, last := lines[..|lines| - 1], lines[|lines| - 1];
      assert lines == front + [last];
      Accepted(front, parse);
      ReadLinesSnoc(INITIAL, front, last, parse);
      var r := ReadLines(INITIAL, front, parse);
      if r.Ok? {
        VerdictNext(r.value, front, last, parse);
      } else {
        VerdictKept(front, last, r.error, parse);
      }
    }
  }

  lemma NothingAccepted(parse: string -> Url)
    ensures Verdict([], ReadLines(INITIAL, [], parse), parse)
  {
  }

  lemma ErrorLine(st: State, lines: seq<string>, last: string, parse: string -> Url)
    requires Known(st, lines, parse)
    ensures var r := ReadLine(st, last, parse);
            r.Bad? ==> !r.error.Storage? && !r.error.Unread? && LineOf(r.error) == |lines| + 1
  {
    hide Setter, Sets, SetName, SetUrl, Section;
  }

  // ----- sections and errors, line by line -----

  /** Lines behind a header, as long as no other header comes, stand in its section. */
  lemma {:induction false} UnderHeader(before: seq<string>, header: string, lines: seq<string>)
    requires SCRIPTS !in lines && MODULES !in lines && (header == "[scripts]" || header == "[modules]")
    ensures var all := before + [header] + lines;
            Section(all, |all|) == if header == "[scripts]" then Script else Module
    decreases |lines|
  {
    var all := before + [header] + lines;
    if lines == [] {
      assert all[|all| - 1] == header;
    } else {
      var front, last := lines[..|lines| - 1], lines[|lines| - 1];
      assert last in lines && all == (before + [header] + front) + [last];
      UnderHeader(before, header, front);
      SectionPrefix(before + [header] + front, last, |all| - 1);
    }
  }

  /** Lines before the first header stand in no section. */
  lemma {:induction false} UnderNone(lines: seq<string>, n: nat)
    requires SCRIPTS !in lines && MODULES !in lines && n <= |lines|
    ensures Section(lines, n) == Syntax
  {
    if n > 0 {
      assert lines[n - 1] in lines;
      UnderNone(lines, n - 1);
    }
  }

  /** The error of the line `last` behind lines that are accepted. */
  ghost predicate ErrorOf(lines: seq<string>, last: string, e: Error, parse: string -> Url) {
    var n := |lines| + 1;
    if last != "" && last[0] == '[' then
      e == if last in lines then DuplicateSection(last, n) else InvalidSection(last, n)
    else
      && ((forall name, url :: !Sets(last, name, url)) ==> e == InvalidSyntax(n))
      && forall name, url :: Sets(last, name, url) ==>
           match parse(url)
           case NoUrl => e == InvalidUrl(url, n)
           case OtherScheme(scheme) => e == UnsupportedScheme(scheme, n)
           case Web => e == DuplicateName(n)
  }

  lemma LineError(st: State, lines: seq<string>, last: string, parse: string -> Url)
    requires Known(st, lines, parse) && ReadLine(st, last, parse).Bad? && ListOk(lines, parse)
    ensures ErrorOf(lines, last, ReadLine(st, last, parse).error, parse)
  {
    if last in lines {
      var k :| 0 <= k < |lines| && lines[k] == last;
      assert LineOk(lines[k], parse);
      SetterIsMatch(last, parse);
    }
    if last != "" && last[0] == '[' {
      BracketError(st, lines, last, parse);
    } else {
      SettingError(st, lines, last, parse);
    }
  }

  lemma BracketError(st: State, lines: seq<string>, last: string, parse: string -> Url)
    requires Known(st, lines, parse) && ReadLine(st, last, parse).Bad? && last != "" && last[0] == '['
    requires last in lines ==> last == SCRIPTS || last == MODULES
    ensures var n := |lines| + 1;
            ReadLine(st, last, parse).error ==
              if last in lines then DuplicateSection(last, n) else InvalidSection(last, n)
  {
    hide Setter, Sets, SetName, SetUrl, Section, Match;
  }

  lemma SettingError(st: State, lines: seq<string>, last: string, parse: string -> Url)
    requires |st.rows| == |lines| && ReadLine(st, last, parse).Bad? && last != "" && last[0] != '['
    ensures ErrorOf(lines, last, ReadLine(st, last, parse).error, parse)
  {
    forall name, url | Sets(last, name, url) ensures Match(last) == Setting(name, url) {
      MatchExactly(last, name, url);
    }
    if Match(last).Setting? {
      MatchExactly(last, Match(last).name, Match(last).url);
    }
    hide Match, Sets;
  }

  /** Of a list that is not accepted, the error is that of the line that it names, told by the lines before it. */
  lemma FirstError(lines: seq<string>, parse: string -> Url)
    requires ReadLines(INITIAL, lines, parse).Bad?
    ensures var e := ReadLines(INITIAL, lines, parse).error;
            && !e.Storage? && !e.Unread? && 1 <= LineOf(e) <= |lines|
            && ErrorOf(lines[..LineOf(e) - 1], lines[LineOf(e) - 1], e, parse)
  {
    hide *;
    AcceptedExactly(lines, parse);
    var e := ReadLines(INITIAL, lines, parse).error;
    var n := LineOf(e);
    var before, last := lines[..n - 1], lines[n - 1];
    Accepted(before, parse);
    AcceptedExactly(before, parse);
    AcceptedExactly(lines[..n], parse);
    AcceptedState(before, parse);
    var st := ReadLines(INITIAL, before, parse).value;
    ReadLinesSnoc(INITIAL, before, last, parse);
    assert lines[..n] == before + [last];
    BadPrefix(INITIAL, lines[..n], lines[n..], parse);
    assert lines[..n] + lines[n..] == lines;
    LineError(st, before, last, parse);
  }

  lemma AcceptedState(lines: seq<string>, parse: string -> Url)
    requires ReadLines(INITIAL, lines, parse).Ok?
    ensures Known(ReadLines(INITIAL, lines, parse).value, lines, parse) && ListOk(lines, parse)
  {
    Accepted(lines, parse);
    hide ReadLines, Known, ListOk;
  }

  /** What follows a line that is refused makes no difference. */
  lemma {:induction false} BadPrefix(st: State, lines: seq<string>, more: seq<string>, parse: string -> Url)
    requires ReadLines(st, lines, parse).Bad?
    ensures ReadLines(st, lines + more, parse) == ReadLines(st, lines, parse)
    decreases |lines|
  {
    hide ReadLine;
    assert (lines + more)[0] == lines[0] && (lines + more)[1..] == lines[1..] + more;
    if ReadLine(st, lines[0], parse).Ok? {
      BadPrefix(ReadLine(st, lines[0], parse).value, lines[1..], more, parse);
    }
  }
}
