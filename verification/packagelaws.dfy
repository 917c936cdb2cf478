/** What storing and reading back the package list comes to. */
module PackageLaws {
  import opened Packages
  import opened Strings

  // ----- the rows of an accepted list -----

  /** The line a row was made from. */
  function RowLine(r: Row): string {
    match r case Text(text, _) => text case Package(name, url, _, _) => name + " = " + url
  }

  predicate RowsGood(st: State) {
    && (forall i :: 0 <= i < |st.rows| ==> st.rows[i].number == i + 1)
    && (forall i :: 0 <= i < |st.rows| && st.rows[i].Package? ==>
          st.rows[i].name in st.names && st.rows[i].name != "" && NameChar(st.rows[i].name[0]))
    && (forall i, j :: 0 <= i < j < |st.rows| && st.rows[i].Package? && st.rows[j].Package? ==>
          st.rows[i].name != st.rows[j].name)
  }

  /** One good row more, made from `line`. */
  ghost predicate Extends(st: State, next: State, line: string) {
    && RowsGood(next) && |next.rows| == |st.rows| + 1
    && next.rows[..|st.rows|] == st.rows && RowLine(next.rows[|st.rows|]) == line
  }

  lemma AddTextGood(st: State, to: State, line: string)
    requires RowsGood(st) && to.rows == st.rows && to.names == st.names
    ensures Extends(st, AddText(to, line), line)
  {
  }

  lemma AddPackageGood(st: State, name: string, url: string)
    requires RowsGood(st) && name !in st.names && name != "" && NameChar(name[0])
    ensures Extends(st, st.(names := st.names + {name}, rows := st.rows + [Package(name, url, st.kind, |st.rows| + 1)]),
                    name + " = " + url)
  {
  }

  lemma ReadLineGood(st: State, line: string, parse: string -> Url)
    requires RowsGood(st)
    ensures var r := ReadLine(st, line, parse); r.Ok? ==> Extends(st, r.value, line)
  {
    hide RowsGood, NameChar, AddText, Extends;
    AddTextGood(st, st, line);
    AddTextGood(st, st.(scripts := true, kind := Script), line);
    AddTextGood(st, st.(modules := true, kind := Module), line);
    var m := Match(line);
    if m.Setting? && m.name !in st.names {
      AddPackageGood(st, m.name, m.url);
    }
    hide Match;
  }

  lemma {:induction false} ReadLinesGood(st: State, lines: seq<string>, parse: string -> Url)
    requires RowsGood(st)
    ensures var r := ReadLines(st, lines, parse);
            r.Ok? ==> RowsGood(r.value) && |r.value.rows| == |st.rows| + |lines| && r.value.rows[..|st.rows|] == st.rows
                      && forall j :: 0 <= j < |lines| ==> RowLine(r.value.rows[|st.rows| + j]) == lines[j]
    decreases |lines|
  {
    hide ReadLine, RowsGood, RowLine;
    var r := ReadLines(st, lines, parse);
    if lines != [] && r.Ok? {
      var next := ReadLine(st, lines[0], parse).value;
      ReadLineGood(st, lines[0], parse);
      ReadLinesGood(next, lines[1..], parse);
      var rows := r.value.rows;
      assert rows[..|st.rows|] == rows[..|next.rows|][..|st.rows|];
      forall j | 0 <= j < |lines| ensures RowLine(rows[|st.rows| + j]) == lines[j] {
        if j == 0 {
          assert rows[|st.rows|] == rows[..|next.rows|][|st.rows|];
        } else {
          assert RowLine(rows[|next.rows| + (j - 1)]) == lines[1..][j - 1];
        }
      }
    }
  }

  lemma Be16Back(n: nat)
    requires n < 0x1_0000
    ensures FromBe16(Be16(n)[0], Be16(n)[1]) == n
  {
    Octets(n);
    assert Be16(n)[0] as int == n / 256 % 256 && Be16(n)[1] as int == n % 256;
    hide Be16;
  }

  /** The keys of text rows are in the order of their lines. */
  lemma TextKeysInOrder(a: string, m: nat, b: string, n: nat)
    requires m < 0x1_0000 && n < 0x1_0000
    ensures var k, l := Key(Text(a, m)), Key(Text(b, n));
            && |k| == |l| == 3 && k[0] == l[0]
            && (m < n <==> k[1] < l[1] || (k[1] == l[1] && k[2] < l[2]))
  {
    Octets(m);
    Octets(n);
    assert Key(Text(a, m)) == ['\0', Be16(m)[0], Be16(m)[1]] && Key(Text(b, n)) == ['\0', Be16(n)[0], Be16(n)[1]];
    Digits256(m, n);
  }

  lemma Digits256(m: nat, n: nat)
    requires m < 0x1_0000 && n < 0x1_0000
    ensures m / 256 < 256 && n / 256 < 256
    ensures m < n <==> m / 256 < n / 256 || (m / 256 == n / 256 && m % 256 < n % 256)
  {
  }

  lemma Octets(n: nat)
    requires n < 0x1_0000
    ensures n / 256 % 256 % 256 * 256 + n % 256 % 256 == n
  {
    assert n / 256 < 256;
  }

  /** The rows of a list of at most 65535 lines have different keys. */
  lemma KeysDiffer(st: State, i: nat, j: nat)
    requires RowsGood(st) && i < j < |st.rows| <= 0xFFFF
    ensures Key(st.rows[i]) != Key(st.rows[j])
  {
    Be16Back(i + 1);
    Be16Back(j + 1);
    var a, b := st.rows[i], st.rows[j];
    if a.Text? && b.Text? {
      assert Key(a)[1..] == Be16(i + 1) && Key(b)[1..] == Be16(j + 1);
    } else if a.Text? || b.Text? {
      assert Key(a)[0] != Key(b)[0];
    }
  }

  /** The store holds exactly the rows, each under its key. */
  lemma {:induction false} StoredRows(st: State, n: nat)
    requires RowsGood(st) && n <= |st.rows| <= 0xFFFF
    ensures var m := Stored(st.rows[..n]);
            && (forall i :: 0 <= i < n ==> Key(st.rows[i]) in m && m[Key(st.rows[i])] == Value(st.rows[i]))
            && (forall k :: k in m ==> exists i :: 0 <= i < n && k == Key(st.rows[i]))
  {
    hide Key, Value, RowsGood;
    if n > 0 {
      StoredRows(st, n - 1);
      assert st.rows[..n] == st.rows[..n - 1] + [st.rows[n - 1]];
      StoredSnoc(st.rows[..n - 1], st.rows[n - 1]);
      forall i | 0 <= i < n - 1 ensures Key(st.rows[i]) != Key(st.rows[n - 1]) {
        KeysDiffer(st, i, n - 1);
      }
    }
  }

  /** Of keys with the same number, the one that the cursor comes to first gives the line. */
  lemma {:induction false} FirstOfNumber(cursor: seq<string>, table: map<string, string>, j: nat)
    requires RowsOk(table) && (forall k :: k in cursor ==> k in table) && j < |cursor|
    requires forall i :: 0 <= i < j ==> Number(cursor[i], table[cursor[i]]) != Number(cursor[j], table[cursor[j]])
    ensures var m, n := Numbered(cursor, table), Number(cursor[j], table[cursor[j]]);
            n in m && m[n] == LineText(cursor[j], table[cursor[j]])
  {
    var front := cursor[..|cursor| - 1];
    assert forall k :: k in front ==> k in cursor;
    if j < |front| {
      FirstOfNumber(front, table, j);
    } else {
      NumbersOf(front, table);
    }
  }

  /** Only the numbers of the keys come up. */
  lemma {:induction false} NumbersOf(cursor: seq<string>, table: map<string, string>)
    requires RowsOk(table) && forall k :: k in cursor ==> k in table
    ensures forall n :: n in Numbered(cursor, table) ==>
              exists i :: 0 <= i < |cursor| && Number(cursor[i], table[cursor[i]]) == n
  {
    if cursor != [] {
      var front := cursor[..|cursor| - 1];
      assert forall k :: k in front ==> k in cursor;
      NumbersOf(front, table);
      forall i | 0 <= i < |front| ensures front[i] == cursor[i] && front[i] in front && front[i] in table {
      }
      forall n | n in Numbered(cursor, table)
        ensures exists i :: 0 <= i < |cursor| && Number(cursor[i], table[cursor[i]]) == n
      {
        if n in Numbered(front, table) {
          var i :| 0 <= i < |front| && Number(front[i], table[front[i]]) == n;
          assert cursor[i] == front[i];
        } else {
          assert Number(cursor[|cursor| - 1], table[cursor[|cursor| - 1]]) == n;
        }
      }
    }
  }

  lemma RowBack(r: Row)
    requires 0 < r.number < 0x1_0000 && (r.Package? ==> r.name != "" && NameChar(r.name[0]))
    ensures var k, v := Key(r), Value(r);
            && k != "" && (if k[0] == '\0' then |k| == 3 else |v| >= 4)
            && Number(k, v) == r.number && LineText(k, v) == RowLine(r)
  {
    Be16Back(r.number);
    if r.Package? {
      var v := Value(r);
      assert v[..|v| - 4] == r.url && v[|v| - 2..] == Be16(r.number);
      assert v[|v| - 2] == v[|v| - 2..][0] && v[|v| - 1] == v[|v| - 2..][1];
    } else {
      assert Key(r)[1..] == Be16(r.number);
    }
  }

  // ----- reading back -----

  /** `cursor` yields every key of the table once. */
  ghost predicate Enumerates(cursor: seq<string>, table: map<string, string>) {
    && (forall k :: k in cursor <==> k in table)
    && (forall i, j :: 0 <= i < j < |cursor| ==> cursor[i] != cursor[j])
  }

  ghost predicate NumbersDiffer(table: map<string, string>)
    requires RowsOk(table)
  {
    forall k, l :: k in table && l in table && Number(k, table[k]) == Number(l, table[l]) ==> k == l
  }

  lemma {:induction false} KeyOfNumber(cursor: seq<string>, table: map<string, string>, n: nat) returns (k: string)
    requires RowsOk(table) && (forall k :: k in cursor ==> k in table) && n in Numbered(cursor, table)
    ensures k in cursor && Number(k, table[k]) == n
    decreases |cursor|
  {
    hide Number, LineText;
    k := cursor[|cursor| - 1];
    if Number(k, table[k]) != n {
      k := KeyOfNumber(cursor[..|cursor| - 1], table, n);
    }
  }

  lemma {:induction false} NumberedLines(cursor: seq<string>, table: map<string, string>)
    requires RowsOk(table) && NumbersDiffer(table) && forall k :: k in cursor ==> k in table
    ensures var m := Numbered(cursor, table);
            && (forall k :: k in cursor ==> Number(k, table[k]) in m && m[Number(k, table[k])] == LineText(k, table[k]))
    decreases |cursor|
  {
    hide Number, LineText;
    if cursor != [] {
      var front, last := cursor[..|cursor| - 1], cursor[|cursor| - 1];
      assert cursor == front + [last];
      NumberedLines(front, table);
      var n := Number(last, table[last]);
      if n in Numbered(front, table) {
        var k := KeyOfNumber(front, table, n);
      }
    }
  }

  function Join(ls: seq<string>): string {
    if ls == [] then "" else if |ls| == 1 then ls[0] else ls[0] + "\n" + Join(ls[1..])
  }

  /** A list without its leading empty lines. */
  function DropEmpty(ls: seq<string>): seq<string> {
    if ls != [] && ls[0] == "" then DropEmpty(ls[1..]) else ls
  }

  lemma {:induction false} JoinSnoc(ls: seq<string>, l: string)
    ensures Join(ls + [l]) == if ls == [] then l else Join(ls) + "\n" + l
  {
    if |ls| == 0 {
      assert ls + [l] == [l];
    } else {
      assert (ls + [l])[1..] == ls[1..] + [l];
      JoinSnoc(ls[1..], l);
      if |ls| > 1 {
        assert ls[0] + "\n" + (Join(ls[1..]) + "\n" + l) == ls[0] + "\n" + Join(ls[1..]) + "\n" + l;
      }
    }
  }

  lemma {:induction false} DropEmptySnoc(ls: seq<string>, l: string)
    ensures DropEmpty(ls + [l]) ==
            if DropEmpty(ls) != [] then DropEmpty(ls) + [l] else if l == "" then [] else [l]
    ensures DropEmpty(ls) != [] ==> Join(DropEmpty(ls)) != ""
  {
    if ls == [] {
      assert ls + [l] == [l];
    } else {
      assert (ls + [l])[1..] == ls[1..] + [l];
      DropEmptySnoc(ls[1..], l);
    }
  }

  /** Line `k`, counted from one, stands under `k`. */
  ghost predicate LinesUnder(m: map<nat, string>, lines: seq<string>) {
    && (forall k :: k in m <==> 1 <= k <= |lines|)
    && (forall k :: k in m ==> m[k] == lines[k - 1])
  }

  /** Printing numbered lines in order joins them, less the empty ones in front. */
  lemma {:induction false} PrintedJoin(m: map<nat, string>, lines: seq<string>, n: nat)
    requires LinesUnder(m, lines)
    ensures Printed(m, n)
       == Join(DropEmpty(if n == 0 then [] else lines[..if n - 1 <= |lines| then n - 1 else |lines|]))
  {
    if n > 0 {
      PrintedJoin(m, lines, n - 1);
      if 1 <= n - 1 <= |lines| {
        var front := lines[..n - 2];
        assert lines[..n - 1] == front + [lines[n - 2]];
        DropEmptySnoc(front, lines[n - 2]);
        JoinSnoc(DropEmpty(front), lines[n - 2]);
      } else if n - 1 > |lines| {
        assert n - 2 <= |lines| ==> lines[..n - 2] == lines[..|lines|];
      } else {
        assert lines[..0] == [];
      }
    }
  }

  lemma TableGood(st: State)
    requires RowsGood(st) && |st.rows| <= 0xFFFF
    ensures var table := Stored(st.rows);
            RowsOk(table) && NumbersDiffer(table)
    ensures var table := Stored(st.rows);
            forall i :: 0 <= i < |st.rows| ==>
              var k := Key(st.rows[i]);
              k in table && Number(k, table[k]) == i + 1 && LineText(k, table[k]) == RowLine(st.rows[i])
  {
    hide Key, Value, Number, LineText, RowLine, Stored;
    assert st.rows[..|st.rows|] == st.rows;
    StoredRows(st, |st.rows|);
    forall i | 0 <= i < |st.rows| {
      RowBack(st.rows[i]);
    }
  }

  lemma RowOfKey(st: State, k: string) returns (i: nat)
    requires RowsGood(st) && |st.rows| <= 0xFFFF && k in Stored(st.rows)
    ensures i < |st.rows| && k == Key(st.rows[i])
  {
    hide Key, Value, RowsGood, Stored;
    assert st.rows[..|st.rows|] == st.rows;
    StoredRows(st, |st.rows|);
    i :| 0 <= i < |st.rows| && k == Key(st.rows[i]);
  }

  /**
   After an accepted list of at most 65535 lines, in whatever order the store yields
   its rows: reading back gives the same lines in order, less leading empty lines.
   */
  lemma SetThenGet(source: string, parse: string -> Url, cursor: seq<string>)
    requires var r := ReadLines(INITIAL, GetLines(source), parse);
             r.Ok? && |GetLines(source)| <= 0xFFFF && Enumerates(cursor, Stored(r.value.rows))
    ensures var table := Stored(ReadLines(INITIAL, GetLines(source), parse).value.rows);
            RowsOk(table) && Printed(Numbered(cursor, table), 0x1_0000) == Join(DropEmpty(GetLines(source)))
  {
    hide ReadLines, GetLines, Stored, RowsGood, RowLine, Numbered, Printed;
    var lines := GetLines(source);
    InitialGood();
    ReadLinesGood(INITIAL, lines, parse);
    var st := ReadLines(INITIAL, lines, parse).value;
    TableGood(st);
    TableNumbered(st, lines, cursor);
    PrintedJoin(Numbered(cursor, Stored(st.rows)), lines, 0x1_0000);
    assert lines[..|lines|] == lines;
  }

  lemma InitialGood()
    ensures RowsGood(INITIAL)
  {
  }

  /** The numbered lines are those the rows were made from. */
  lemma TableNumbered(st: State, lines: seq<string>, cursor: seq<string>)
    requires RowsGood(st) && |st.rows| == |lines| <= 0xFFFF && Enumerates(cursor, Stored(st.rows))
    requires forall j :: 0 <= j < |lines| ==> RowLine(st.rows[j]) == lines[j]
    requires RowsOk(Stored(st.rows)) && NumbersDiffer(Stored(st.rows))
    ensures LinesUnder(Numbered(cursor, Stored(st.rows)), lines)
  {
    hide Stored, RowsGood, RowsOk, NumbersDiffer, Numbered, RowLine, Enumerates;
    forall n: nat {
      LineNumbered(st, cursor, n);
    }
  }

  lemma LineNumbered(st: State, cursor: seq<string>, n: nat)
    requires RowsGood(st) && |st.rows| <= 0xFFFF && Enumerates(cursor, Stored(st.rows))
    requires RowsOk(Stored(st.rows)) && NumbersDiffer(Stored(st.rows))
    ensures var m := Numbered(cursor, Stored(st.rows));
            && (n in m <==> 1 <= n <= |st.rows|)
            && (n in m ==> m[n] == RowLine(st.rows[n - 1]))
  {
    hide Stored, RowsGood, NumbersDiffer, Key, Number, LineText, RowLine, Numbered;
    var table := Stored(st.rows);
    TableGood(st);
    NumberedLines(cursor, table);
    if n in Numbered(cursor, table) {
      var k := KeyOfNumber(cursor, table, n);
      var i := RowOfKey(st, k);
      assert Number(k, table[k]) == i + 1;
    }
    if 1 <= n <= |st.rows| {
      var k := Key(st.rows[n - 1]);
      assert k in table && k in cursor;
    }
  }

  function Chopped(s: string): string {
    if s != "" && s[|s| - 1] == '\n' then s[..|s| - 1] else s
  }

  lemma ChoppedTail(line: string, rest: string)
    requires rest != ""
    ensures Chopped(line + "\n" + rest) == line + "\n" + Chopped(rest)
  {
    var s := line + "\n" + rest;
    assert s[|s| - 1] == rest[|rest| - 1];
    assert s[..|s| - 1] == line + "\n" + rest[..|rest| - 1];
  }

  lemma ChoppedEnd(line: string)
    ensures Chopped(line + "\n") == line
  {
  }

  /** The lines of a text, joined, are the text less its final line end. */
  lemma {:induction false} JoinedSource(source: string)
    ensures Join(GetLines(source)) == Chopped(source)
    decreases |source|
  {
    hide LineEnd;
    if source != "" {
      var n := LineEnd(source);
      var line := source[..n];
      if n < |source| {
        var rest := source[n + 1..];
        assert source == line + "\n" + rest;
        JoinedSource(rest);
        if rest != "" {
          ChoppedTail(line, rest);
        } else {
          assert source == line + "\n";
          ChoppedEnd(line);
        }
      } else {
        assert line == source;
        assert source[|source| - 1] in line;
      }
    }
  }

  // ----- the cache -----

  /** The cache keys of the packages under a section. */
  function Listed(rows: seq<Row>): set<string> {
    set r | r in rows && r.Package? && r.kind != Syntax :: r.url + "\0"
  }

  lemma RowUrl(r: Row)
    requires NoShortRows([r])
    ensures r.Package? ==> (LineType(Value(r)) != '\0' <==> r.kind != Syntax)
                           && Value(r)[..|Value(r)| - 3] == r.url + "\0"
  {
    assert r in [r];
    if r.Package? {
      var v := Value(r);
      assert v[..|v| - 3] == r.url + "\0" && v[|v| - 3] == KindByte(r.kind);
      assert KindByte(Module) != '\0' && KindByte(Script) != '\0';
    }
  }

  /** A comment whose fourth octet from the end is NUL, and whose third is not, looks like a cached key. */
  predicate Lookalike(r: Row) {
    r.Text? && |r.text| >= 4 && r.text[|r.text| - 3] != '\0' && r.text[|r.text| - 4] == '\0'
  }

  lemma TextUrl(r: Row)
    requires r.Text? && NoShortRows([r]) && r.text != ""
    ensures |r.text| >= 3
    ensures LineType(Value(r)) != '\0' && IsObject(r.text[..|r.text| - 3]) <==> Lookalike(r)
  {
    assert r in [r];
  }

  /** What one row gives the clean-up for listed, among the keys that end in NUL. */
  lemma RowKept(r: Row, k: string)
    requires NoShortRows([r]) && IsObject(k)
    ensures (LineType(Value(r)) != '\0' && k == Value(r)[..|Value(r)| - 3])
            <==> (r.Package? && r.kind != Syntax && k == r.url + "\0") || (Lookalike(r) && k == r.text[..|r.text| - 3])
  {
    RowUrl(r);
    if r.Text? && r.text != "" {
      TextUrl(r);
    }
    hide Value, LineType;
  }

  /** Only the keys of listed packages and of look-alike comments are kept among those that end in NUL. */
  lemma KeptUrls(rows: seq<Row>, k: string)
    requires NoShortRows(rows) && IsObject(k)
    ensures k in Urls(rows) <==>
              k in Listed(rows) || exists r :: r in rows && Lookalike(r) && k == r.text[..|r.text| - 3]
  {
    forall r | r in rows ensures NoShortRows([r]) {
    }
    hide Value, LineType, Lookalike, IsObject;
    forall r | r in rows {
      RowKept(r, k);
    }
  }

  /** The cache less exactly the NUL-ended keys that no section lists. */
  function Exactly(cache: map<string, string>, rows: seq<Row>): map<string, string> {
    map k | k in cache && (IsObject(k) ==> k in Listed(rows)) :: cache[k]
  }

  /**
   The clean-up drops exactly the NUL-ended keys that are no longer listed under a
   section, whatever is cached, if and only if no comment is a look-alike. (Text
   rows start with `#` or `[`, which no listed URL does.)
   */
  lemma CleanedExactly(rows: seq<Row>)
    requires NoShortRows(rows)
    requires forall r :: r in rows && r.Text? && r.text != "" ==> r.text[0] == '#' || r.text[0] == '['
    requires forall r :: r in rows && r.Package? ==> r.url != "" && r.url[0] != '#' && r.url[0] != '['
    ensures (forall cache: map<string, string> :: Cleaned(cache, Urls(rows)) == Exactly(cache, rows))
            <==> (forall r :: r in rows ==> !Lookalike(r))
  {
    hide Urls, Listed;
    forall k | IsObject(k) {
      KeptUrls(rows, k);
    }
    if r :| r in rows && Lookalike(r) {
      LookalikeKept(rows, r);
    } else {
      forall cache: map<string, string> ensures Cleaned(cache, Urls(rows)) == Exactly(cache, rows) {
        assert forall k :: k in cache && IsObject(k) ==> (k in Urls(rows) <==> k in Listed(rows));
      }
    }
  }

  lemma LookalikeKept(rows: seq<Row>, r: Row)
    requires NoShortRows(rows) && r in rows && Lookalike(r) && (r.text[0] == '#' || r.text[0] == '[')
    requires forall q :: q in rows && q.Package? ==> q.url != "" && q.url[0] != '#' && q.url[0] != '['
    ensures var k := r.text[..|r.text| - 3];
            Cleaned(map[k := ""], Urls(rows)) != Exactly(map[k := ""], rows)
  {
    var k := r.text[..|r.text| - 3];
    assert IsObject(k);
    KeptUrls(rows, k);
    forall q | q in rows && q.Package? ensures q.url + "\0" != k {
      assert (q.url + "\0")[0] == q.url[0];
    }
    assert k !in Listed(rows);
    assert k in Cleaned(map[k := ""], Urls(rows)) && k !in Exactly(map[k := ""], rows);
  }
}
