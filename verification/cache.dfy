/**
 The cache of compiled notebooks: `Plugin` keeps the version of every notebook it runs,
 each thread keeps compiled code under a version, and one disk thread reads and writes
 the files. A version is the time of a file's last change.
 */
module CodeCache {
  import Preprocess

  import opened Wrappers

  datatype Cell = Cell(code: string, disabled: bool)

  type Text = seq<Cell>

  // ----- compiling -----

  /** Cells compile in one context: `compile` is given the sources that went before. A failure ends it. */
  function Compiled<B>(compile: (seq<string>, string) -> Option<B>, before: seq<string>, cells: Text): Option<seq<B>>
    decreases |cells|
  {
    if cells == [] then Some([])
    else if cells[0].disabled then Compiled(compile, before, cells[1..])
    else
      var source := Preprocess.Expansion(cells[0].code);
      match compile(before, source)
      case None => None
      case Some(b) =>
        match Compiled(compile, before + [source], cells[1..])
        case None => None
        case Some(bs) => Some([b] + bs)
  }

  /** What `Compiled` gives once `done` is compiled already. */
  function Onto<B>(done: seq<B>, rest: Option<seq<B>>): Option<seq<B>> {
    match rest case None => None case Some(bs) => Some(done + bs)
  }

  // ----- one call -----

  datatype Entry<B> = Entry(version: nat, code: seq<B>)

  function Find<B>(cached: map<string, Entry<B>>, name: string): Option<Entry<B>> {
    if name in cached then Some(cached[name]) else None
  }

  /** The entry for `name` will do for version `asked`. */
  predicate Fresh<B>(cached: map<string, Entry<B>>, name: string, asked: nat) {
    name in cached && cached[name].version >= asked
  }

  /** The cache after the disk has answered with `text`. */
  function Filled<B>(compile: (seq<string>, string) -> Option<B>, cached: map<string, Entry<B>>,
                     name: string, asked: nat, text: Option<Text>): map<string, Entry<B>> {
    match text
    case None => cached
    case Some(t) =>
      match Compiled(compile, [], t)
      case None => cached
      case Some(code) => cached[name := Entry(asked, code)]
  }

  predicate Fails<B>(compile: (seq<string>, string) -> Option<B>, text: Option<Text>) {
    text.None? || Compiled(compile, [], text.value).None?
  }

  /** The cache of one thread. */
  class Cacher<B> {
    var cached: map<string, Entry<B>>

    constructor ()
      ensures cached == map[]
    {
      cached := map[];
    }

    /**
     `loaded` is what the disk thread answers if it is asked. A failure leaves an older entry in place
     and returns it.
     */
    method Cache(compile: (seq<string>, string) -> Option<B>, name: string, version: nat, loaded: Option<Text>)
      returns (r: Option<Entry<B>>)
      modifies this
      ensures cached == if Fresh(old(cached), name, version) then old(cached)
                      else Filled(compile, old(cached), name, version, loaded)
      ensures r == Find(cached, name)
    {
      if name !in cached || cached[name].version < version {
        if loaded.Some? {
          var code := CompileCells(compile, loaded.value);
          if code.Some? {
            cached := cached[name := Entry(version, code.value)];
          }
        }
      }
      r := if name in cached then Some(cached[name]) else None;
    }

    static method CompileCells(compile: (seq<string>, string) -> Option<B>, cells: Text) returns (code: Option<seq<B>>)
      ensures code == Compiled(compile, [], cells)
    {
      var bytecode: seq<B>, sources: seq<string> := [], [];
      assert cells[0..] == cells;
      OntoNothing(Compiled(compile, [], cells));
      for i := 0 to |cells|
        invariant Compiled(compile, [], cells) == Onto(bytecode, Compiled(compile, sources, cells[i..]))
      {
        assert cells[i..][0] == cells[i] && cells[i..][1..] == cells[i + 1..];
        if !cells[i].disabled {
          var source := Preprocess.Expansion(cells[i].code);
          var b := compile(sources, source);
          if b.None? {
            return None;
          }
          OntoSnoc(bytecode, b.value, Compiled(compile, sources + [source], cells[i + 1..]));
          bytecode, sources := bytecode + [b.value], sources + [source];
        }
      }
      assert bytecode + [] == bytecode;
      code := Some(bytecode);
    }
  }

  lemma OntoNothing<B>(rest: Option<seq<B>>)
    ensures Onto([], rest) == rest
  {
    if rest.Some? {
      assert [] + rest.value == rest.value;
    }
  }

  lemma OntoSnoc<B>(done: seq<B>, b: B, rest: Option<seq<B>>)
    ensures Onto(done + [b], rest) == Onto(done, match rest case None => None case Some(bs) => Some([b] + bs))
  {
    if rest.Some? {
      assert done + [b] + rest.value == done + ([b] + rest.value);
    }
  }

  // ----- the versions asked for -----

  /** The versions of the notebooks that plugins run; `None` for one that is not there. */
  class Plugin {
    var versions: map<string, Option<nat>>

    constructor ()
      ensures versions == map[]
    {
      versions := map[];
    }

    method Removed(name: string)
      modifies this
      ensures versions == Retired(old(versions), name)
    {
      if name in versions {
        versions := versions[name := None];
      }
    }

    /** `current` is the version of the file now. */
    method Updated(name: string, current: Option<nat>)
      modifies this
      ensures versions == Renewed(old(versions), name, current)
    {
      if name in versions {
        versions := versions[name := current];
      }
    }

    method Load(name: string, current: Option<nat>)
      modifies this
      ensures versions == Known(old(versions), name, current)
    {
      if name !in versions {
        versions := versions[name := current];
      }
    }
  }

  function Retired(versions: map<string, Option<nat>>, name: string): map<string, Option<nat>> {
    if name in versions then versions[name := None] else versions
  }

  function Renewed(versions: map<string, Option<nat>>, name: string, current: Option<nat>): map<string, Option<nat>> {
    if name in versions then versions[name := current] else versions
  }

  function Known(versions: map<string, Option<nat>>, name: string, current: Option<nat>): map<string, Option<nat>> {
    if name in versions then versions else versions[name := current]
  }

  // ----- all threads -----

  datatype File = File(version: nat, text: Text)

  /** A text that was on disk. */
  datatype Seen = Seen(name: string, version: nat, text: Text)

  /**
   What the disk thread is in the middle of: telling `Plugin` about a file, or putting a result where
   the notebook was.
   */
  datatype Pending = Nothing | Update(name: string) | Retire(name: string) | Replace(name: string, file: File)

  datatype Pc<B> =
    | Idle
    | Waiting(name: string, asked: nat)
    | Loaded(name: string, asked: nat, text: Option<Text>)
    | Done(name: string, asked: nat, result: Option<Entry<B>>, failed: bool)

  datatype Local<B> = Local(cached: map<string, Entry<B>>, pc: Pc<B>)

  /**
   `clock` is the latest version of all. Two fields only record what happened: `seen` every
   text that was on disk, and `untold` the names under which a file was put in place, or removed by
   a failed save, that `Plugin` has not been told of since.
   */
  datatype State<B> = State(
    disk: map<string, File>, pending: Pending, versions: map<string, Option<nat>>, threads: map<nat, Local<B>>,
    clock: nat, seen: set<Seen>, untold: set<string>)
  {
    function Current(name: string): Option<nat> {
      if name in disk then Some(disk[name].version) else None
    }

    function At(t: nat): Local<B> {
      if t in threads then threads[t] else Local(map[], Idle)
    }

    function Put(name: string, f: File): State<B> {
      this.(disk := disk[name := f], seen := seen + {Seen(name, f.version, f.text)})
    }
  }

  datatype Action =
    | Save(name: string, text: Text, version: nat)
    | SaveFails(name: string)                          // what was written is removed, and nobody is told
    | Remove(name: string)
    | Move(name: string, to: string)
    | Tell
    | Result(name: string, text: Text, version: nat)   // the notebook is moved aside for the printed result of a run
    | Place                                            // and the result is moved to its name
    | Register(name: string)
    | Exec(t: nat, name: string)
    | Load(t: nat)
    | Compile(t: nat)

  /** The disk thread does one thing at a time; what is written has a version later than any before. */
  predicate Enabled<B>(s: State<B>, a: Action) {
    match a
    case Save(_, _, version) => s.pending == Nothing && version > s.clock
    case SaveFails(_) => s.pending == Nothing
    case Remove(name) => s.pending == Nothing && name in s.disk
    case Move(name, _) => s.pending == Nothing && name in s.disk
    case Tell => s.pending.Update? || s.pending.Retire?
    case Result(name, _, version) => s.pending == Nothing && name in s.disk && version > s.clock
    case Place => s.pending.Replace?
    case Register(_) => true
    case Exec(t, name) => s.At(t).pc.Idle? || s.At(t).pc.Done?
    case Load(t) => s.pending == Nothing && s.At(t).pc.Waiting?
    case Compile(t) => s.At(t).pc.Loaded?
  }

  /** One step; an action that is not enabled changes nothing. */
  function Next<B>(compile: (seq<string>, string) -> Option<B>, s: State<B>, a: Action): State<B> {
    if !Enabled(s, a) then s
    else match a
      case Save(name, text, version) => s.Put(name, File(version, text)).(pending := Update(name), clock := version)
      case SaveFails(name) => Lost(s, name)
      case Remove(name) => s.(disk := s.disk - {name}, pending := Retire(name))
      case Move(name, to) => Moved(s, name, to)
      case Tell => Told(s)
      case Result(name, text, version) =>
        s.(disk := s.disk - {name}, pending := Replace(name, File(version, text)), clock := version)
      case Place => s.Put(s.pending.name, s.pending.file).(pending := Nothing, untold := s.untold + {s.pending.name})
      case Register(name) =>
        s.(versions := Known(s.versions, name, s.Current(name)),
           untold := if name in s.versions then s.untold else s.untold - {name})
      case Exec(t, name) => s.(threads := s.threads[t := Started(s.At(t), name, s.versions)])
      case Load(t) => s.(threads := s.threads[t := Read(s, s.At(t))])
      case Compile(t) => s.(threads := s.threads[t := Finished(compile, s.At(t))])
  }

  /** There is something to tell unless the notebook is known as gone. */
  function Lost<B>(s: State<B>, name: string): State<B> {
    var gone := name in s.versions && s.versions[name].None?;
    s.(disk := s.disk - {name}, untold := if gone then s.untold - {name} else s.untold + {name})
  }

  /** Only the old name is to be told. */
  function Moved<B>(s: State<B>, name: string, to: string): State<B>
    requires name in s.disk
  {
    var disk := s.disk[to := s.disk[name]];
    s.Put(to, s.disk[name]).(disk := if to == name then disk else disk - {name},
                             pending := Retire(name), untold := s.untold + {to})
  }

  function Told<B>(s: State<B>): State<B>
    requires s.pending.Update? || s.pending.Retire?
  {
    var n := s.pending.name;
    s.(versions := if s.pending.Update? then Renewed(s.versions, n, s.Current(n)) else Retired(s.versions, n),
       pending := Nothing,
       untold := if s.pending.Retire? && n in s.disk then s.untold + {n} else s.untold - {n})
  }

  function Read<B>(s: State<B>, l: Local<B>): Local<B>
    requires l.pc.Waiting?
  {
    var text := if l.pc.name in s.disk then Some(s.disk[l.pc.name].text) else None;
    l.(pc := Loaded(l.pc.name, l.pc.asked, text))
  }

  /** `exec` up to where the disk is asked. */
  function Started<B>(l: Local<B>, name: string, versions: map<string, Option<nat>>): Local<B> {
    if name !in versions || versions[name].None? then Local(l.cached - {name}, Idle)
    else
      var asked := versions[name].value;
      if Fresh(l.cached, name, asked) then l.(pc := Done(name, asked, Find(l.cached, name), false))
      else l.(pc := Waiting(name, asked))
  }

  /** The rest of it. */
  function Finished<B>(compile: (seq<string>, string) -> Option<B>, l: Local<B>): Local<B>
    requires l.pc.Loaded?
  {
    var cached := Filled(compile, l.cached, l.pc.name, l.pc.asked, l.pc.text);
    Local(cached, Done(l.pc.name, l.pc.asked, Find(cached, l.pc.name), Fails(compile, l.pc.text)))
  }

  function Steps<B>(compile: (seq<string>, string) -> Option<B>, s: State<B>, run: seq<Action>): State<B>
    decreases |run|
  {
    if run == [] then s else Steps(compile, Next(compile, s, run[0]), run[1..])
  }
}
