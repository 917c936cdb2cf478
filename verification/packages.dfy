/**
 The package list: `set_packages` turns its lines into rows of a keyed store, each row
 carrying its line number, and `get_packages` puts the lines back together from the
 rows. Characters stand for octets.
 */
module Packages {
  import opened Strings

  datatype Kind = Syntax | Module | Script

  function KindByte(k: Kind): char {
    match k case Syntax => '\0' case Module => 1 as char case Script => 2 as char
  }

  /** The verdict of the URL library on a string. */
  datatype Url = NoUrl | Web | OtherScheme(scheme: string)

  datatype Error =
    | DuplicateSection(line: string, at: nat)
    | InvalidSection(line: string, at: nat)
    | InvalidUrl(url: string, at: nat)
    | UnsupportedScheme(scheme: string, at: nat)
    | DuplicateName(at: nat)
    | InvalidSyntax(at: nat)
    | Storage
    | Unread

  datatype Outcome<T> = Ok(value: T) | Bad(error: Error)

  // ----- lines -----

  /** The lines `getline` yields: no empty line after a final line end. */
  function GetLines(s: string): seq<string>
    decreases |s|
  {
    if s == "" then []
    else
      var n := LineEnd(s);
      [s[..n]] + if n < |s| then GetLines(s[n + 1..]) else []
  }

  predicate NameChar(c: char) {
    'A' <= c <= 'Z' || 'a' <= c <= 'z' || '0' <= c <= '9' || c == '_' || c == '.' || c == '@' || c == '-'
  }

  function NameEnd(s: string): (n: nat)
    ensures n <= |s| && forall k :: 0 <= k < n ==> NameChar(s[k])
    ensures n < |s| ==> !NameChar(s[n])
  {
    if s == "" || !NameChar(s[0]) then 0 else 1 + NameEnd(s[1..])
  }

  datatype Setting = NoSetting | Setting(name: string, url: string)

  /** `^([A-Za-z0-9_.@-]+) = (.+)$`, where the dot matches no line end. */
  function Match(line: string): (m: Setting)
    ensures m.Setting? ==> m.name != "" && m.url != "" && line == m.name + " = " + m.url
    ensures m.Setting? ==> forall k :: 0 <= k < |m.name| ==> NameChar(m.name[k])
  {
    var n := NameEnd(line);
    if n == 0 || n + 3 >= |line| || line[n..n + 3] != " = " || '\n' in line[n + 3..] || '\r' in line[n + 3..]
    then NoSetting
    else
      assert line == line[..n] + line[n..n + 3] + line[n + 3..];
      Setting(line[..n], line[n + 3..])
  }

  // ----- rows -----

  /** A row before it is stored; the number is that of its line, counted from one. */
  datatype Row = Text(text: string, number: nat) | Package(name: string, url: string, kind: Kind, number: nat)

  /** Two octets, high one first, of a number cut to sixteen bits. */
  function Be16(n: nat): (s: string)
    ensures |s| == 2
  {
    [(n / 256 % 256) as char, (n % 256) as char]
  }

  function Key(r: Row): string {
    match r
    case Text(_, n) => "\0" + Be16(n)
    case Package(name, _, _, _) => name
  }

  function Value(r: Row): string {
    match r
    case Text(text, _) => text
    case Package(_, url, kind, n) => url + "\0" + [KindByte(kind)] + Be16(n)
  }

  /** `line_type`: the octet before the number, which is no type octet in a text row. */
  function LineType(v: string): char
    requires v == "" || |v| >= 3
  {
    if v == "" then '\0' else v[|v| - 3]
  }

  // ----- reading the lines -----

  datatype State = State(kind: Kind, scripts: bool, modules: bool, names: set<string>, rows: seq<Row>)

  const INITIAL := State(Syntax, false, false, {}, [])

  function AddText(st: State, line: string): State {
    st.(rows := st.rows + [Text(line, |st.rows| + 1)])
  }

  function ReadLine(st: State, line: string, parse: string -> Url): Outcome<State> {
    var at := |st.rows| + 1;
    if line == "" || line[0] == '#' then Ok(AddText(st, line))
    else if line[0] == '[' then
      if line == "[scripts]" then
        if st.scripts then Bad(DuplicateSection(line, at)) else Ok(AddText(st.(scripts := true, kind := Script), line))
      else if line == "[modules]" then
        if st.modules then Bad(DuplicateSection(line, at)) else Ok(AddText(st.(modules := true, kind := Module), line))
      else Bad(InvalidSection(line, at))
    else match Match(line)
      case NoSetting => Bad(InvalidSyntax(at))
      case Setting(name, url) =>
        match parse(url)
        case NoUrl => Bad(InvalidUrl(url, at))
        case OtherScheme(scheme) => Bad(UnsupportedScheme(scheme, at))
        case Web =>
          if name in st.names then Bad(DuplicateName(at))
          else Ok(st.(names := st.names + {name}, rows := st.rows + [Package(name, url, st.kind, at)]))
  }

  function ReadLines(st: State, lines: seq<string>, parse: string -> Url): Outcome<State>
    decreases |lines|
  {
    if lines == [] then Ok(st)
    else match ReadLine(st, lines[0], parse)
      case Bad(e) => Bad(e)
      case Ok(next) => ReadLines(next, lines[1..], parse)
  }

  // ----- the store -----

  const MAX_KEY: nat := 511

  function Stored(rows: seq<Row>): map<string, string> {
    if rows == [] then map[]
    else
      var r := rows[|rows| - 1];
      Stored(rows[..|rows| - 1])[Key(r) := Value(r)]
  }

  /**
   What the clean-up of the cache takes for listed: for every row with a type octet, all but its last three octets.
   */
  function Urls(rows: seq<Row>): set<string>
    requires NoShortRows(rows)
  {
    set r | r in rows && LineType(Value(r)) != '\0' :: Value(r)[..|Value(r)| - 3]
  }

  /** Text rows of one or two octets have no octet where the type is looked for. */
  predicate NoShortRows(rows: seq<Row>) {
    forall r :: r in rows && r.Text? ==> r.text == "" || |r.text| >= 3
  }

  predicate IsObject(k: string) {
    k != "" && k[|k| - 1] == '\0'
  }

  function Cleaned(cache: map<string, string>, urls: set<string>): map<string, string> {
    map k | k in cache && !(IsObject(k) && k !in urls) :: cache[k]
  }

  /**
   The two tables of the environment that the list is kept in. `Unread` stands for what is undefined in the source:
   of a comment of one or two octets the type octet is read from before its row.
   */
  class Database {
    var packages: map<string, string>
    var cache: map<string, string>

    method SetPackages(source: string, parse: string -> Url) returns (r: Outcome<()>)
      modifies this
      ensures var read := ReadLines(INITIAL, GetLines(source), parse);
              if read.Bad? then r == Bad(read.error) && packages == old(packages) && cache == old(cache)
              else if !NoShortRows(read.value.rows)
                then r == Bad(Unread) && packages == old(packages) && cache == old(cache)
              else
                var rows := read.value.rows;
                && (r.Ok? <==> forall row :: row in rows ==> |Key(row)| <= MAX_KEY)
                && (r.Ok? ==> packages == Stored(rows) && cache == Cleaned(old(cache), Urls(rows)))
                && (r.Bad? ==> r.error == Storage && packages == old(packages) && cache == old(cache))
    {
      hide ReadLines, GetLines, Stored, Urls, Key, Value, LineType, NoShortRows;
      var read := ReadSource(source, parse);
      if read.Bad? {
        return Bad(read.error);
      }
      var rows := read.value.rows;
      var urls := CollectUrls(rows);
      if urls.Bad? {
        return Bad(urls.error);
      }
      var table := PutRows(rows);
      if table.Bad? {
        return Bad(table.error);
      }
      cache := map k | k in cache && !(IsObject(k) && k !in urls.value) :: cache[k];
      packages := table.value;
      r := Ok(());
    }

    static method ReadSource(source: string, parse: string -> Url) returns (r: Outcome<State>)
      ensures r == ReadLines(INITIAL, GetLines(source), parse)
    {
      hide ReadLine, GetLines;
      var lines := GetLines(source);
      var st, k := INITIAL, 0;
      assert lines[0..] == lines;
      while k < |lines|
        invariant 0 <= k <= |lines|
        invariant ReadLines(INITIAL, lines, parse) == ReadLines(st, lines[k..], parse)
      {
        assert lines[k..][0] == lines[k] && lines[k..][1..] == lines[k + 1..];
        match ReadLine(st, lines[k], parse)
        case Bad(e) => return Bad(e);
        case Ok(next) => st, k := next, k + 1;
      }
      r := Ok(st);
    }

    static method CollectUrls(rows: seq<Row>) returns (urls: Outcome<set<string>>)
      ensures urls.Ok? <==> NoShortRows(rows)
      ensures urls == if urls.Ok? then Ok(Urls(rows)) else Bad(Unread)
    {
      var us := {};
      for j := 0 to |rows|
        invariant NoShortRows(rows[..j]) && us == Urls(rows[..j])
      {
        assert rows[..j + 1] == rows[..j] + [rows[j]];
        var v := Value(rows[j]);
        if v != "" && |v| < 3 {
          assert rows[j] in rows;
          return Bad(Unread);
        }
        UrlsSnoc(rows[..j], rows[j]);
        if LineType(v) != '\0' {
          us := us + {v[..|v| - 3]};
        }
      }
      assert rows[..|rows|] == rows;
      urls := Ok(us);
    }

    static method PutRows(rows: seq<Row>) returns (table: Outcome<map<string, string>>)
      ensures table.Ok? <==> forall row :: row in rows ==> |Key(row)| <= MAX_KEY
      ensures table == if table.Ok? then Ok(Stored(rows)) else Bad(Storage)
    {
      hide Key, Value;
      var m := map[];
      for j := 0 to |rows|
        invariant m == Stored(rows[..j])
        invariant forall row :: row in rows[..j] ==> |Key(row)| <= MAX_KEY
      {
        if |Key(rows[j])| > MAX_KEY {
          return Bad(Storage);
        }
        assert rows[..j + 1] == rows[..j] + [rows[j]];
        StoredSnoc(rows[..j], rows[j]);
        m := m[Key(rows[j]) := Value(rows[j])];
      }
      assert rows[..|rows|] == rows;
      table := Ok(m);
    }

    /** `cursor` is the order in which the store yields its keys. */
    method GetPackages(cursor: seq<string>) returns (target: string)
      requires RowsOk(packages) && (forall k :: k in cursor ==> k in packages)
      ensures target == Printed(Numbered(cursor, packages), 0x1_0000)
    {
      var lines: map<nat, string> := map[];
      for j := 0 to |cursor|
        invariant lines == Numbered(cursor[..j], packages)
      {
        var k := cursor[j];
        var v := packages[k];
        assert cursor[..j + 1][..j] == cursor[..j];
        var n := Number(k, v);
        if n !in lines {
          lines := lines[n := LineText(k, v)];
        }
      }
      assert cursor[..|cursor|] == cursor;
      target := "";
      for n := 0 to 0x1_0000
        invariant target == Printed(lines, n)
      {
        if n in lines {
          if target != "" {
            target := target + "\n";
          }
          target := target + lines[n];
        }
      }
    }
  }

  lemma UrlsSnoc(rows: seq<Row>, r: Row)
    requires NoShortRows(rows + [r])
    ensures NoShortRows(rows)
    ensures Urls(rows + [r]) == Urls(rows) + if LineType(Value(r)) != '\0' then {Value(r)[..|Value(r)| - 3]} else {}
  {
    assert forall q :: q in rows ==> q in rows + [r];
    assert r in rows + [r];
  }

  lemma StoredSnoc(rows: seq<Row>, r: Row)
    ensures Stored(rows + [r]) == Stored(rows)[Key(r) := Value(r)]
  {
    assert (rows + [r])[..|rows|] == rows;
  }

  // ----- the lines back -----

  predicate RowsOk(table: map<string, string>) {
    forall k :: k in table ==> k != "" && if k[0] == '\0' then |k| == 3 else |table[k]| >= 4
  }

  function FromBe16(hi: char, lo: char): nat {
    hi as int % 256 * 256 + lo as int % 256
  }

  function Number(k: string, v: string): nat
    requires k != "" && if k[0] == '\0' then |k| == 3 else |v| >= 4
  {
    if k[0] == '\0' then FromBe16(k[1], k[2]) else FromBe16(v[|v| - 2], v[|v| - 1])
  }

  function LineText(k: string, v: string): string
    requires k != "" && if k[0] == '\0' then |k| == 3 else |v| >= 4
  {
    if k[0] == '\0' then v else k + " = " + v[..|v| - 4]
  }

  /** A number keeps the first line it is met with. */
  function Numbered(cursor: seq<string>, table: map<string, string>): map<nat, string>
    requires RowsOk(table) && forall k :: k in cursor ==> k in table
  {
    if cursor == [] then map[]
    else
      var k := cursor[|cursor| - 1];
      var m := Numbered(cursor[..|cursor| - 1], table);
      var n := Number(k, table[k]);
      if n in m then m else m[n := LineText(k, table[k])]
  }

  /** The lines with numbers below `n`, in order; a line break goes before a line only if something is there already. */
  function Printed(m: map<nat, string>, n: nat): string {
    if n == 0 then ""
    else
      var t := Printed(m, n - 1);
      if n - 1 !in m then t else if t != "" then t + "\n" + m[n - 1] else m[n - 1]
  }
}
