/** The bounded repository walk. A directory lists its entries in whatever order the system
    yields them; the walk sorts them by name. */
module RepoProfiler {
  import opened Foundation
  import opened Text
  import Names

  const MAX_PATH_LEN := 512

  /** A file name: its bytes, by which names are ordered, and their text if they are UTF-8. */
  datatype Name = Utf8(raw: Names.Name, text: string) | NotUtf8(raw: Names.Name)

  datatype Entry = Entry(name: Name, node: Node)

  /** `Uninspectable`: its type cannot be read. An unreadable directory lists nothing. */
  datatype Node = File | Symlink | Uninspectable | Dir(dir: Directory)

  datatype Directory = Unreadable | Readable(entries: seq<Entry>)

  datatype Config = Config(maxDepth: nat, maxPaths: nat)

  predicate SafeName(name: string) {
    && name != "" && name != "." && name != ".."
    && '/' !in name && '\\' !in name
    && forall c | c in name :: !IsControl(c)
  }

  predicate SkippedName(name: string) {
    name in {".git", ".hg", ".svn", "target", "node_modules", ".next", ".turbo", "dist", "build", ".venv",
             "__pycache__"}
  }

  function JoinRel(parent: string, child: string): string {
    if parent == "" then child else parent + "/" + child
  }

  // ----- sorting -----

  predicate Before(a: Entry, b: Entry) {
    Names.NameLe(a.name.raw, b.name.raw)
  }

  function Insert(e: Entry, s: seq<Entry>): seq<Entry> {
    if s == [] || Before(e, s[0]) then [e] + s else [s[0]] + Insert(e, s[1..])
  }

  /** The entries by name; entries of one name keep their order. */
  function Sort(s: seq<Entry>): seq<Entry> {
    if s == [] then [] else Insert(s[0], Sort(s[1..]))
  }

  /** The tree with every listing sorted. */
  function SortDir(d: Directory): Directory
    decreases d, 1
  {
    match d
    case Unreadable => Unreadable
    case Readable(entries) => Readable(Sort(SortEntries(entries)))
  }

  function SortEntries(entries: seq<Entry>): seq<Entry>
    decreases entries, 0
  {
    if entries == [] then [] else [SortEntry(entries[0])] + SortEntries(entries[1..])
  }

  function SortEntry(e: Entry): Entry
    decreases e, 0
  {
    if e.node.Dir? then e.(node := Dir(SortDir(e.node.dir))) else e
  }

  lemma {:induction false} InsertMaps(e: Entry, s: seq<Entry>)
    ensures SortEntries(Insert(e, s)) == Insert(SortEntry(e), SortEntries(s))
    decreases |s|
  {
    hide SortEntry, Before;
    if s == [] || Before(e, s[0]) {
      assert ([e] + s)[1..] == s;
    } else {
      InsertMaps(e, s[1..]);
      assert ([s[0]] + Insert(e, s[1..]))[1..] == Insert(e, s[1..]);
      var t := SortEntries(s);
      assert t[0] == SortEntry(s[0]) && t[1..] == SortEntries(s[1..]);
    }
    SameName(e);
    if s != [] {
      SameName(s[0]);
      BeforeByName(e, SortEntry(e), s[0], SortEntry(s[0]));
    }
  }

  lemma SameName(e: Entry)
    ensures SortEntry(e).name == e.name
  {
  }

  lemma BeforeByName(a: Entry, a': Entry, b: Entry, b': Entry)
    requires a'.name == a.name && b'.name == b.name
    ensures Before(a', b') <==> Before(a, b)
  {
  }

  /** Sorting a listing and sorting what is below it can be done in either order. */
  lemma {:induction false} SortMaps(s: seq<Entry>)
    ensures SortEntries(Sort(s)) == Sort(SortEntries(s))
    decreases |s|
  {
    hide SortEntry, Insert;
    if s != [] {
      SortMaps(s[1..]);
      InsertMaps(s[0], Sort(s[1..]));
      var t := SortEntries(s);
      assert t[0] == SortEntry(s[0]) && t[1..] == SortEntries(s[1..]);
    }
  }

  lemma {:induction false} InsertHolds(e: Entry, s: seq<Entry>, x: Entry)
    ensures x in Insert(e, s) <==> x == e || x in s
    decreases |s|
  {
    hide Before;
    if s != [] && !Before(e, s[0]) {
      InsertHolds(e, s[1..], x);
    }
  }

  lemma {:induction false} SortHolds(s: seq<Entry>, x: Entry)
    ensures x in Sort(s) <==> x in s
    decreases |s|
  {
    hide Insert;
    if s != [] {
      SortHolds(s[1..], x);
      InsertHolds(s[0], Sort(s[1..]), x);
    }
  }

  /** Sorted by name, from the least. */
  ghost predicate ByName(s: seq<Entry>) {
    forall i, j | 0 <= i < j < |s| :: Names.NameLe(s[i].name.raw, s[j].name.raw)
  }

  lemma {:induction false} InsertByName(e: Entry, s: seq<Entry>)
    requires ByName(s)
    ensures ByName(Insert(e, s)) && multiset(Insert(e, s)) == multiset(s) + multiset{e}
    decreases |s|
  {
    hide Names.NameLe;
    var r := Insert(e, s);
    if s == [] || Before(e, s[0]) {
      forall j | 0 <= j < |s| ensures Names.NameLe(e.name.raw, s[j].name.raw) {
        if j > 0 {
          Names.NamesChain(e.name.raw, s[0].name.raw, s[j].name.raw);
        }
      }
    } else {
      Names.NamesTotal(e.name.raw, s[0].name.raw);
      InsertByName(e, s[1..]);
      assert s == [s[0]] + s[1..];
      forall j | 0 < j < |r| ensures Names.NameLe(s[0].name.raw, r[j].name.raw) {
        assert r[j] == Insert(e, s[1..])[j - 1];
        InsertHolds(e, s[1..], r[j]);
      }
      forall i, j | 0 <= i < j < |r| ensures Names.NameLe(r[i].name.raw, r[j].name.raw) {
        if i > 0 {
          assert r[i] == r[1..][i - 1] && r[j] == r[1..][j - 1] && r[1..] == Insert(e, s[1..]);
        }
      }
    }
  }

  /** Sorting puts the entries in name order, from the least, and loses and adds none. */
  lemma {:induction false} SortIs(s: seq<Entry>)
    ensures ByName(Sort(s)) && multiset(Sort(s)) == multiset(s)
    decreases |s|
  {
    if s != [] {
      hide ByName, Insert;
      SortIs(s[1..]);
      InsertByName(s[0], Sort(s[1..]));
      assert s == [s[0]] + s[1..];
    }
  }

  // ----- the listing order does not matter -----

  predicate DistinctNames(s: seq<Entry>) {
    s == [] || ((forall e | e in s[1..] :: e.name.raw != s[0].name.raw) && DistinctNames(s[1..]))
  }

  /** Each entry comes strictly before every later one. */
  predicate Ordered(s: seq<Entry>) {
    s == [] || ((forall e | e in s[1..] :: Before(s[0], e) && e.name.raw != s[0].name.raw) && Ordered(s[1..]))
  }

  lemma {:induction false} InsertOrders(e: Entry, s: seq<Entry>)
    requires Ordered(s) && forall x | x in s :: x.name.raw != e.name.raw
    ensures Ordered(Insert(e, s))
    decreases |s|
  {
    hide Before;
    if s == [] || Before(e, s[0]) {
      assert ([e] + s)[1..] == s;
      forall x | x in s ensures Before(e, x) {
        if x != s[0] {
          BeforeChain(e, s[0], x);
        }
      }
    } else {
      InsertOrders(e, s[1..]);
      var r := [s[0]] + Insert(e, s[1..]);
      assert r[1..] == Insert(e, s[1..]);
      forall x | x in r[1..] ensures Before(s[0], x) && x.name.raw != s[0].name.raw {
        InsertHolds(e, s[1..], x);
        Names.NamesTotal(e.name.raw, s[0].name.raw);
        assert Before(s[0], e) by { BeforeOr(e, s[0]); }
      }
    }
  }

  lemma BeforeChain(a: Entry, b: Entry, c: Entry)
    requires Before(a, b) && Before(b, c)
    ensures Before(a, c)
  {
    Names.NamesChain(a.name.raw, b.name.raw, c.name.raw);
  }

  lemma BeforeOr(a: Entry, b: Entry)
    ensures Before(a, b) || Before(b, a)
    ensures Before(a, b) && Before(b, a) ==> a.name.raw == b.name.raw
  {
    Names.NamesTotal(a.name.raw, b.name.raw);
  }

  lemma {:induction false} SortOrders(s: seq<Entry>)
    requires DistinctNames(s)
    ensures Ordered(Sort(s))
    decreases |s|
  {
    hide Insert;
    if s != [] {
      SortOrders(s[1..]);
      forall x | x in Sort(s[1..]) ensures x.name.raw != s[0].name.raw {
        SortHolds(s[1..], x);
      }
      InsertOrders(s[0], Sort(s[1..]));
    }
  }

  /** Two ordered listings of the same entries are the same listing. */
  lemma {:induction false} OrderedUnique(a: seq<Entry>, b: seq<Entry>)
    requires Ordered(a) && Ordered(b) && forall e :: e in a <==> e in b
    ensures a == b
    decreases |a|
  {
    hide Before;
    HeadIn(a);
    HeadIn(b);
    if a != [] {
      InTail(b, a[0]);
      InTail(a, b[0]);
      BeforeOr(a[0], b[0]);
      forall e ensures e in a[1..] <==> e in b[1..] {
        InTail(a, e);
        InTail(b, e);
      }
      OrderedUnique(a[1..], b[1..]);
      assert a == [a[0]] + a[1..] && b == [b[0]] + b[1..];
    }
  }

  lemma HeadIn(s: seq<Entry>)
    ensures s != [] ==> s[0] in s
  {
  }

  lemma InTail(s: seq<Entry>, e: Entry)
    requires s != []
    ensures e in s <==> e == s[0] || e in s[1..]
  {
    assert s == [s[0]] + s[1..];
  }

  /** The same tree, listed in any order at every level. */
  ghost predicate Same(a: Directory, b: Directory)
    decreases a, 1
  {
    || (a.Unreadable? && b.Unreadable?)
    || (&& a.Readable? && b.Readable? && DistinctNames(a.entries) && DistinctNames(b.entries)
        && (forall x | x in a.entries :: exists y | y in b.entries :: SameEntry(x, y))
        && (forall y | y in b.entries :: exists x | x in a.entries :: SameEntry(x, y)))
  }

  ghost predicate SameEntry(a: Entry, b: Entry)
    decreases a, 0
  {
    && a.name == b.name
    && (if a.node.Dir? && b.node.Dir? then Same(a.node.dir, b.node.dir) else a.node == b.node)
  }

  lemma {:induction false} SortedHolds(entries: seq<Entry>, e: Entry)
    ensures e in SortEntries(entries) <==> exists x | x in entries :: SortEntry(x) == e
    decreases |entries|
  {
    hide SortEntry;
    if entries != [] {
      SortedHolds(entries[1..], e);
      if exists x | x in entries :: SortEntry(x) == e {
        var x :| x in entries && SortEntry(x) == e;
        assert x == entries[0] || x in entries[1..];
      }
    }
  }

  lemma {:induction false} SortedDistinct(entries: seq<Entry>)
    requires DistinctNames(entries)
    ensures DistinctNames(SortEntries(entries))
    decreases |entries|
  {
    hide SortEntry;
    if entries != [] {
      SortedDistinct(entries[1..]);
      var t := SortEntries(entries);
      assert t[0] == SortEntry(entries[0]) && t[1..] == SortEntries(entries[1..]);
      SameName(entries[0]);
      forall e | e in t[1..] ensures e.name.raw != t[0].name.raw {
        SortedHolds(entries[1..], e);
        var x :| x in entries[1..] && SortEntry(x) == e;
        SameName(x);
      }
    }
  }

  lemma {:induction false} SameSorts(a: Directory, b: Directory)
    requires Same(a, b)
    ensures SortDir(a) == SortDir(b)
    decreases a, 2
  {
    if a.Readable? {
      var x, y := SortEntries(a.entries), SortEntries(b.entries);
      SameMembers(a, b);
      hide SortEntry, SortEntries, SameEntry, Ordered, Sort, DistinctNames;
      SortedDistinct(a.entries);
      SortedDistinct(b.entries);
      SortOrders(x);
      SortOrders(y);
      forall e ensures e in Sort(x) <==> e in Sort(y) {
        SortHolds(x, e);
        SortHolds(y, e);
      }
      OrderedUnique(Sort(x), Sort(y));
    }
  }

  lemma {:induction false} SameMembers(a: Directory, b: Directory)
    requires Same(a, b) && a.Readable? && b.Readable?
    ensures forall e :: e in SortEntries(a.entries) <==> e in SortEntries(b.entries)
    decreases a, 1
  {
    hide SortEntry, SortEntries, SameEntry, Same;
    forall e ensures e in SortEntries(a.entries) <==> e in SortEntries(b.entries) {
      SortedHolds(a.entries, e);
      SortedHolds(b.entries, e);
      if e in SortEntries(a.entries) {
        var p :| p in a.entries && SortEntry(p) == e;
        var q := Partner(a, b, p);
        SameEntrySorts(p, q);
      }
      if e in SortEntries(b.entries) {
        var q :| q in b.entries && SortEntry(q) == e;
        var p := PartnerBack(a, b, q);
        SameEntrySorts(p, q);
      }
    }
  }

  lemma Partner(a: Directory, b: Directory, x: Entry) returns (y: Entry)
    requires Same(a, b) && a.Readable? && b.Readable? && x in a.entries
    ensures y in b.entries && SameEntry(x, y)
  {
    hide SameEntry;
    y :| y in b.entries && SameEntry(x, y);
  }

  lemma PartnerBack(a: Directory, b: Directory, y: Entry) returns (x: Entry)
    requires Same(a, b) && a.Readable? && b.Readable? && y in b.entries
    ensures x in a.entries && SameEntry(x, y)
  {
    hide SameEntry;
    x :| x in a.entries && SameEntry(x, y);
  }

  lemma {:induction false} SameEntrySorts(a: Entry, b: Entry)
    requires SameEntry(a, b)
    ensures SortEntry(a) == SortEntry(b)
    decreases a, 0
  {
    hide Same, SortDir;
    if a.node.Dir? && b.node.Dir? {
      SameSorts(a.node.dir, b.node.dir);
    }
  }

  // ----- the unbounded walk over sorted listings, as the tape of what it meets -----

  datatype Event =
    | Enter              // a directory is opened
    | Path(p: string)    // an admissible entry
    | Deep               // its subtree lies below the depth limit
    | Link | BadPath | Ignored
    | Fail(at: string)

  function DirTape(d: Directory, rel: string, depth: nat, maxDepth: nat): seq<Event>
    decreases d, 1
  {
    match d
    case Unreadable => [Enter, Fail(rel)]
    case Readable(entries) => [Enter] + EntriesTape(entries, rel, depth, maxDepth)
  }

  function EntriesTape(entries: seq<Entry>, rel: string, depth: nat, maxDepth: nat): seq<Event>
    decreases entries, 0
  {
    if entries == [] then [] else
    EntryTape(entries[0], rel, depth, maxDepth) + EntriesTape(entries[1..], rel, depth, maxDepth)
  }

  function EntryTape(e: Entry, rel: string, depth: nat, maxDepth: nat): seq<Event>
    decreases e, 0
  {
    if e.name.NotUtf8? || !SafeName(e.name.text) then [BadPath]
    else if SkippedName(e.name.text) then [Ignored]
    else
      var child := JoinRel(rel, e.name.text);
      if Bytes(child) > MAX_PATH_LEN then [BadPath]
      else match e.node
        case Uninspectable => [Fail(child)]
        case Symlink => [Link]
        case File => [Path(child)]
        case Dir(d) =>
          if depth >= maxDepth then [Path(child), Deep]
          else [Path(child)] + DirTape(d, child, depth + 1, maxDepth)
  }

  /** What the walk of a whole repository meets. */
  function Tape(d: Directory, maxDepth: nat): seq<Event> {
    DirTape(SortDir(d), "", 0, maxDepth)
  }

  // ----- the bounded walk, reading that tape -----

  datatype Snapshot = Snapshot(paths: seq<string>, truncated: bool, links: nat, skipped: nat)

  datatype Status = Going | Stopped | Failed(at: string)

  const EMPTY := Snapshot([], false, 0, 0)

  function Read(s: Snapshot, e: Event, maxPaths: nat): (Snapshot, Status) {
    if e.Deep? then (s.(truncated := true), Going)
    else if |s.paths| >= maxPaths then (s.(truncated := true), Stopped)
    else match e
      case Path(p) => (s.(paths := s.paths + [p]), Going)
      case Link => (s.(links := s.links + 1), Going)
      case BadPath => (s.(skipped := s.skipped + 1), Going)
      case Fail(at) => (s, Failed(at))
      case _ => (s, Going)
  }

  function ReadTape(s: Snapshot, tape: seq<Event>, maxPaths: nat): (Snapshot, Status)
    decreases tape
  {
    if tape == [] then (s, Going) else
    var (next, status) := Read(s, tape[0], maxPaths);
    if status.Going? then ReadTape(next, tape[1..], maxPaths) else (next, status)
  }

  lemma {:induction false} ReadAppend(s: Snapshot, a: seq<Event>, b: seq<Event>, maxPaths: nat)
    ensures var (mid, status) := ReadTape(s, a, maxPaths);
            ReadTape(s, a + b, maxPaths) == if status.Going? then ReadTape(mid, b, maxPaths) else (mid, status)
    decreases a
  {
    if a == [] {
      assert a + b == b;
    } else {
      assert (a + b)[1..] == a[1..] + b;
      ReadAppend(Read(s, a[0], maxPaths).0, a[1..], b, maxPaths);
    }
  }

  lemma ReadOne(s: Snapshot, e: Event, maxPaths: nat)
    ensures ReadTape(s, [e], maxPaths) == Read(s, e, maxPaths)
  {
    assert [e][1..] == [];
  }

  /** The walk's shared result, updated in place. */
  class Profile {
    var paths: seq<string>
    var truncated: bool
    var links: nat
    var skipped: nat

    constructor ()
      ensures State() == EMPTY
    {
      paths, truncated, links, skipped := [], false, 0, 0;
    }

    ghost function State(): Snapshot
      reads this
    {
      Snapshot(paths, truncated, links, skipped)
    }

    method Push(path: string, config: Config)
      modifies this
      ensures State() == if old(|paths|) >= config.maxPaths then old(State()).(truncated := true)
                         else old(State()).(paths := old(paths) + [path])
    {
      if |paths| >= config.maxPaths {
        truncated := true;
        return;
      }
      paths := paths + [path];
    }
  }

  /** `Ok(true)`: walked to the end; `Ok(false)`: stopped at the path cap. */
  function Outcome(status: Status): Result<bool, string> {
    match status
    case Going => Ok(true)
    case Stopped => Ok(false)
    case Failed(at) => Err(at)
  }

  method ProfileDir(d: Directory, rel: string, depth: nat, config: Config, p: Profile) returns (r: Result<bool, string>)
    modifies p
    ensures var (s, status) := ReadTape(old(p.State()), DirTape(SortDir(d), rel, depth, config.maxDepth),
                                        config.maxPaths);
            p.State() == s && r == Outcome(status)
    decreases d, 1
  {
    hide EntriesTape;
    ghost var tape := DirTape(SortDir(d), rel, depth, config.maxDepth);
    ghost var start := p.State();
    assert tape[0] == Enter;
    if |p.paths| >= config.maxPaths {
      p.truncated := true;
      return Ok(false);
    }
    match d {
      case Unreadable =>
        assert tape[1..] == [Fail(rel)];
        return Err(rel);
      case Readable(entries) =>
        SortMaps(entries);
        var sorted := Sort(entries);
        assert tape[1..] == EntriesTape(SortEntries(sorted), rel, depth, config.maxDepth);
        forall e | e in sorted ensures e in entries {
          SortHolds(entries, e);
        }
        r := ProfileEntries(sorted, d, rel, depth, config, p);
    }
  }

  method ProfileEntries(list: seq<Entry>, ghost d: Directory, rel: string, depth: nat, config: Config, p: Profile)
    returns (r: Result<bool, string>)
    requires d.Readable? && forall e | e in list :: e in d.entries
    modifies p
    ensures var (s, status) := ReadTape(old(p.State()), EntriesTape(SortEntries(list), rel, depth, config.maxDepth),
                                        config.maxPaths);
            p.State() == s && r == Outcome(status)
    decreases d, 0
  {
    hide EntryTape, ReadTape, SortEntry;
    ghost var start := p.State();
    for i := 0 to |list|
      invariant ReadTape(start, EntriesTape(SortEntries(list), rel, depth, config.maxDepth), config.maxPaths)
             == ReadTape(p.State(), EntriesTape(SortEntries(list[i..]), rel, depth, config.maxDepth), config.maxPaths)
    {
      var e := list[i];
      assert list[i..][0] == e && list[i..][1..] == list[i + 1..];
      ghost var rest := SortEntries(list[i + 1..]);
      assert SortEntries(list[i..])[0] == SortEntry(e) && SortEntries(list[i..])[1..] == rest;
      ReadAppend(p.State(), EntryTape(SortEntry(e), rel, depth, config.maxDepth),
                 EntriesTape(rest, rel, depth, config.maxDepth), config.maxPaths);
      assert e in d.entries;
      r := ProfileEntry(e, rel, depth, config, p);
      if r != Ok(true) {
        return;
      }
    }
    NothingLeft(p.State(), rel, depth, config);
    r := Ok(true);
  }

  lemma NothingLeft(s: Snapshot, rel: string, depth: nat, config: Config)
    ensures ReadTape(s, EntriesTape([], rel, depth, config.maxDepth), config.maxPaths) == (s, Going)
  {
  }

  method ProfileEntry(e: Entry, rel: string, depth: nat, config: Config, p: Profile) returns (r: Result<bool, string>)
    modifies p
    ensures var (s, status) := ReadTape(old(p.State()), EntryTape(SortEntry(e), rel, depth, config.maxDepth),
                                        config.maxPaths);
            p.State() == s && r == Outcome(status)
    decreases e, 0
  {
    hide SafeName, SkippedName, DirTape, SortDir;
    ghost var tape := EntryTape(SortEntry(e), rel, depth, config.maxDepth);
    ghost var start := p.State();
    if |p.paths| >= config.maxPaths {
      p.truncated := true;
      return Ok(false);
    }
    if e.name.NotUtf8? || !SafeName(e.name.text) {
      p.skipped := p.skipped + 1;
      return Ok(true);
    }
    if SkippedName(e.name.text) {
      return Ok(true);
    }
    var child := JoinRel(rel, e.name.text);
    if Bytes(child) > MAX_PATH_LEN {
      p.skipped := p.skipped + 1;
      return Ok(true);
    }
    match e.node {
      case Uninspectable => return Err(child);
      case Symlink =>
        p.links := p.links + 1;
        return Ok(true);
      case File =>
        p.Push(child, config);
        return Ok(true);
      case Dir(d) =>
        p.Push(child, config);
        if depth >= config.maxDepth {
          assert tape[1..] == [Deep];
          ReadOne(p.State(), Deep, config.maxPaths);
          p.truncated := true;
          return Ok(true);
        }
        assert tape[1..] == DirTape(SortDir(d), child, depth + 1, config.maxDepth);
        r := ProfileDir(d, child, depth + 1, config, p);
    }
  }

  // ----- the bounded walk against the unbounded one -----

  function PathsOf(tape: seq<Event>): seq<string> {
    if tape == [] then [] else
    PathsOf(tape[..|tape| - 1]) + (if tape[|tape| - 1].Path? then [tape[|tape| - 1].p] else [])
  }

  predicate NoFail(tape: seq<Event>) {
    forall e | e in tape :: !e.Fail?
  }

  function Count(tape: seq<Event>, e: Event): nat {
    if tape == [] then 0 else Count(tape[..|tape| - 1], e) + (if tape[|tape| - 1] == e then 1 else 0)
  }

  /** The walk met something more after `maxPaths` paths. */
  ghost predicate CapHit(tape: seq<Event>, maxPaths: nat) {
    exists k | 0 <= k < |tape| :: !tape[k].Deep? && |PathsOf(tape[..k])| >= maxPaths
  }

  /** What a bounded walk over a whole tape leaves behind. */
  ghost predicate Bounded(s: Snapshot, status: Status, tape: seq<Event>, maxPaths: nat) {
    && s.paths == FirstN(PathsOf(tape), maxPaths)
    && (s.truncated <==> Deep in tape || CapHit(tape, maxPaths))
    && status == (if CapHit(tape, maxPaths) then Stopped else Going)
    && (!CapHit(tape, maxPaths) ==> s.links == Count(tape, Link) && s.skipped == Count(tape, BadPath))
  }

  lemma CapHitSnoc(front: seq<Event>, e: Event, maxPaths: nat)
    ensures CapHit(front + [e], maxPaths) <==> CapHit(front, maxPaths) || (!e.Deep? && |PathsOf(front)| >= maxPaths)
  {
    var tape := front + [e];
    assert tape[..|front|] == front && tape[|front|] == e;
    forall k | 0 <= k < |front| ensures tape[k] == front[k] && tape[..k] == front[..k] {
    }
    if CapHit(front, maxPaths) {
      var k :| 0 <= k < |front| && !front[k].Deep? && |PathsOf(front[..k])| >= maxPaths;
      assert !tape[k].Deep? && |PathsOf(tape[..k])| >= maxPaths;
    }
  }

  lemma NoFailLast(front: seq<Event>, e: Event)
    requires NoFail(front + [e])
    ensures !e.Fail?
    ensures Deep in front + [e] <==> Deep in front || e == Deep
  {
    assert (front + [e])[|front|] == e;
  }

  lemma BoundedSnoc(front: seq<Event>, e: Event, maxPaths: nat)
    requires NoFail(front + [e])
    requires var (s, status) := ReadTape(EMPTY, front, maxPaths); Bounded(s, status, front, maxPaths)
    ensures var (s, status) := ReadTape(EMPTY, front + [e], maxPaths); Bounded(s, status, front + [e], maxPaths)
  {
    hide ReadTape, CapHit, NoFail;
    NoFailLast(front, e);
    ReadAppend(EMPTY, front, [e], maxPaths);
    var s := ReadTape(EMPTY, front, maxPaths).0;
    ReadOne(s, e, maxPaths);
    CapHitSnoc(front, e, maxPaths);
    OneMoreEvent(front, e);
    hide PathsOf, Count;
    if CapHit(front, maxPaths) {
      StoppedFull(front, maxPaths);
    }
  }

  lemma OneMoreEvent(front: seq<Event>, e: Event)
    ensures PathsOf(front + [e]) == PathsOf(front) + (if e.Path? then [e.p] else [])
    ensures Count(front + [e], Link) == Count(front, Link) + (if e == Link then 1 else 0)
    ensures Count(front + [e], BadPath) == Count(front, BadPath) + (if e == BadPath then 1 else 0)
  {
    assert (front + [e])[..|front|] == front;
  }

  lemma StoppedFull(tape: seq<Event>, maxPaths: nat)
    requires CapHit(tape, maxPaths)
    ensures |PathsOf(tape)| >= maxPaths
  {
    var k :| 0 <= k < |tape| && !tape[k].Deep? && |PathsOf(tape[..k])| >= maxPaths;
    PathsGrow(tape, k);
  }

  lemma {:induction false} PathsGrow(tape: seq<Event>, k: nat)
    requires k <= |tape|
    ensures |PathsOf(tape[..k])| <= |PathsOf(tape)|
  {
    if k == |tape| {
      assert tape[..k] == tape;
    } else {
      assert tape[..|tape| - 1][..k] == tape[..k];
      PathsGrow(tape[..|tape| - 1], k);
    }
  }

  lemma {:induction false} BoundedTape(tape: seq<Event>, maxPaths: nat)
    requires NoFail(tape)
    ensures var (s, status) := ReadTape(EMPTY, tape, maxPaths); Bounded(s, status, tape, maxPaths)
  {
    if tape != [] {
      hide Bounded, ReadTape;
      assert tape == tape[..|tape| - 1] + [tape[|tape| - 1]];
      BoundedTape(tape[..|tape| - 1], maxPaths);
      BoundedSnoc(tape[..|tape| - 1], tape[|tape| - 1], maxPaths);
    }
  }

  /** The unbounded listing of a tree, down to `maxDepth`. */
  function Listing(d: Directory, maxDepth: nat): seq<string> {
    PathsOf(Tape(d, maxDepth))
  }

  /** Over any tree whose walk meets no error, the bounded profile is exactly the first
      `maxPaths` paths of the unbounded listing; it reports truncation exactly when a directory
      lay below the depth limit or something was left after the path cap, and otherwise counts
      every skipped symlink and bad path. */
  lemma ProfileIsPrefix(d: Directory, config: Config)
    requires NoFail(Tape(d, config.maxDepth))
    ensures var tape := Tape(d, config.maxDepth);
            var (s, status) := ReadTape(EMPTY, tape, config.maxPaths);
            && s.paths == FirstN(Listing(d, config.maxDepth), config.maxPaths)
            && (s.truncated <==> Deep in tape || CapHit(tape, config.maxPaths))
            && (!CapHit(tape, config.maxPaths) ==> s.links == Count(tape, Link) && s.skipped == Count(tape, BadPath))
  {
    hide Tape, ReadTape;
    BoundedTape(Tape(d, config.maxDepth), config.maxPaths);
  }

  /** The same tree gives the same profile, in whatever order its directories are listed. */
  lemma ListingOrderIrrelevant(a: Directory, b: Directory, config: Config)
    requires Same(a, b)
    ensures Tape(a, config.maxDepth) == Tape(b, config.maxDepth)
    ensures ReadTape(EMPTY, Tape(a, config.maxDepth), config.maxPaths)
            == ReadTape(EMPTY, Tape(b, config.maxDepth), config.maxPaths)
  {
    hide Same, SortDir, DirTape;
    SameSorts(a, b);
  }

  /** A walk that would meet an error fails with the first one exactly when the path cap does
      not stop it before. */
  lemma FirstErrorUnlessCapped(tape: seq<Event>, k: nat, maxPaths: nat)
    requires k < |tape| && tape[k].Fail? && NoFail(tape[..k])
    ensures var (s, status) := ReadTape(EMPTY, tape, maxPaths);
            && s.paths == FirstN(PathsOf(tape[..k]), maxPaths)
            && status == if CapHit(tape[..k] + [tape[k]], maxPaths) then Stopped else Failed(tape[k].at)
  {
    hide ReadTape, CapHit, NoFail;
    var front, e, rest := tape[..k], tape[k], tape[k + 1..];
    BoundedTape(front, maxPaths);
    var s := ReadTape(EMPTY, front, maxPaths).0;
    assert tape == front + ([e] + rest);
    ReadAppend(EMPTY, front, [e] + rest, maxPaths);
    ReadAppend(s, [e], rest, maxPaths);
    ReadOne(s, e, maxPaths);
    CapHitSnoc(front, e, maxPaths);
  }

  // ----- one entry -----

  /** A text that cannot be a name: empty, a dot or two, or with a slash, backslash or control character. */
  predicate NoName(n: string) {
    || n == "" || n == "." || n == ".."
    || exists i | 0 <= i < |n| :: n[i] == '/' || n[i] == '\\' || n[i] as int < 32 || 127 <= n[i] as int < 160
  }

  /** A name of what is not source: version control, dependencies and build products. */
  predicate NotSource(n: string) {
    || n == ".git" || n == ".hg" || n == ".svn" || n == "target" || n == "node_modules" || n == ".next"
    || n == ".turbo" || n == "dist" || n == "build" || n == ".venv" || n == "__pycache__"
  }

  lemma NamesAre(n: string)
    ensures SafeName(n) <==> !NoName(n)
    ensures SkippedName(n) <==> NotSource(n)
  {
    if SafeName(n) {
      forall i | 0 <= i < |n| ensures n[i] != '/' && n[i] != '\\' && !IsControl(n[i]) {
        assert n[i] in n;
      }
    }
    if !NoName(n) {
      forall c | c in n ensures c != '/' && c != '\\' && !IsControl(c) {
        var i :| 0 <= i < |n| && n[i] == c;
      }
    }
  }

  /** What the profile of a directory with one entry is, for every name and kind of entry: a name that
      cannot be one, or over 512 bytes, is counted; what is not source is passed over; an entry that
      cannot be inspected is an error; a symlink is counted; a file or directory is listed, and the
      profile is truncated by a directory exactly at depth limit zero. */
  lemma OneEntryProfile(e: Entry, config: Config)
    requires config.maxPaths >= 2 && (e.node.Dir? ==> e.node.dir == Readable([]))
    ensures var (s, status) := ReadTape(EMPTY, Tape(Readable([e]), config.maxDepth), config.maxPaths);
            var n := if e.name.Utf8? then e.name.text else "";
            if NoName(n) then (s, status) == (Snapshot([], false, 0, 1), Going)
            else if NotSource(n) then (s, status) == (Snapshot([], false, 0, 0), Going)
            else if Bytes(n) > 512 then (s, status) == (Snapshot([], false, 0, 1), Going)
            else if e.node.Uninspectable? then (s, status) == (Snapshot([], false, 0, 0), Failed(n))
            else if e.node.Symlink? then (s, status) == (Snapshot([], false, 1, 0), Going)
            else (s, status) == (Snapshot([n], e.node.Dir? && config.maxDepth == 0, 0, 0), Going)
  {
    hide Bytes, NoName, NotSource, SafeName, SkippedName;
    var tape := Tape(Readable([e]), config.maxDepth);
    if e.name.Utf8? {
      NamesAre(e.name.text);
    } else {
      NoEmptyName();
    }
    OneEntryTape(e, config.maxDepth);
    assert e.name.Utf8? ==> EMPTY.paths + [e.name.text] == [e.name.text];
    var rest := EntryTape(e, "", 0, config.maxDepth);
    assert tape[0] == Enter && tape[1..] == rest;
    if |rest| == 1 {
      ReadOne(EMPTY, rest[0], config.maxPaths);
      assert rest == [rest[0]];
    } else {
      assert |rest| == 2 && rest[1..] == [rest[1]];
      ReadOne(Read(EMPTY, rest[0], config.maxPaths).0, rest[1], config.maxPaths);
    }
  }

  lemma NoEmptyName()
    ensures NoName("")
  {
  }

  lemma OneEntryTape(e: Entry, maxDepth: nat)
    requires e.node.Dir? ==> e.node.dir == Readable([])
    ensures Tape(Readable([e]), maxDepth) == [Enter] + EntryTape(e, "", 0, maxDepth)
  {
    hide EntryTape;
    assert [e][1..] == [] && SortEntries([]) == [];
    assert SortEntry(e) == e by {
      if e.node.Dir? {
        assert SortDir(Readable([])) == Readable([]);
      }
    }
    assert SortEntries([e]) == [e];
    assert Sort([]) == [] && Sort([e]) == Insert(e, []) == [e];
    assert EntriesTape([], "", 0, maxDepth) == [];
    assert EntriesTape([e], "", 0, maxDepth) == EntryTape(e, "", 0, maxDepth) + [];
  }

  // ----- which trees are walked whole -----

  /** No directory lies more than `h` below. */
  ghost predicate Shallow(d: Directory, h: nat)
    decreases h
  {
    d.Readable? ==> forall e | e in d.entries && e.node.Dir? :: h > 0 && Shallow(e.node.dir, h - 1)
  }

  lemma {:induction false} SortedShallow(d: Directory, h: nat)
    requires Shallow(d, h)
    ensures Shallow(SortDir(d), h)
    decreases h
  {
    hide SortEntries, Sort;
    if d.Readable? {
      forall e | e in SortDir(d).entries && e.node.Dir? ensures h > 0 && Shallow(e.node.dir, h - 1) {
        SortHolds(SortEntries(d.entries), e);
        SortedHolds(d.entries, e);
        var x :| x in d.entries && SortEntry(x) == e;
        SortedShallow(x.node.dir, h - 1);
      }
    }
  }

  lemma {:induction false} ShallowTape(entries: seq<Entry>, rel: string, depth: nat, maxDepth: nat)
    requires depth <= maxDepth && Shallow(Readable(entries), maxDepth - depth)
    ensures Deep !in EntriesTape(entries, rel, depth, maxDepth)
    decreases maxDepth - depth, |entries|
  {
    hide EntryTape;
    if entries != [] {
      var e := entries[0];
      assert e in entries;
      assert forall x | x in entries[1..] :: x in entries;
      ShallowTape(entries[1..], rel, depth, maxDepth);
      DeepInEntry(e, rel, depth, maxDepth);
      if e.node.Dir? && e.name.Utf8? && e.node.dir.Readable? {
        ShallowTape(e.node.dir.entries, JoinRel(rel, e.name.text), depth + 1, maxDepth);
      }
    }
  }

  lemma DeepInEntry(e: Entry, rel: string, depth: nat, maxDepth: nat)
    ensures Deep in EntryTape(e, rel, depth, maxDepth) ==>
              && e.node.Dir? && e.name.Utf8?
              && (depth >= maxDepth ||
                  (e.node.dir.Readable?
                   && Deep in EntriesTape(e.node.dir.entries, JoinRel(rel, e.name.text), depth + 1, maxDepth)))
  {
    hide SafeName, SkippedName, Bytes, EntriesTape;
    if e.node.Dir? && e.name.Utf8? && depth < maxDepth {
      var child := JoinRel(rel, e.name.text);
      var tape := DirTape(e.node.dir, child, depth + 1, maxDepth);
      assert Deep in [Path(child)] + tape ==> Deep in tape;
      if e.node.dir.Readable? {
        var inner := EntriesTape(e.node.dir.entries, child, depth + 1, maxDepth);
        assert tape == [Enter] + inner;
        assert Deep in [Enter] + inner ==> Deep in inner;
      }
    }
  }

  /** A tree with no directory below the depth limit is truncated only by the path cap. */
  lemma ShallowIsWhole(d: Directory, config: Config)
    requires NoFail(Tape(d, config.maxDepth)) && Shallow(d, config.maxDepth)
    ensures var tape := Tape(d, config.maxDepth);
            ReadTape(EMPTY, tape, config.maxPaths).0.truncated <==> CapHit(tape, config.maxPaths)
  {
    hide ReadTape, EntriesTape, CapHit, NoFail, SortDir, Shallow;
    BoundedTape(Tape(d, config.maxDepth), config.maxPaths);
    SortedShallow(d, config.maxDepth);
    DirSorts(d);
    if SortDir(d).Readable? {
      ShallowTape(SortDir(d).entries, "", 0, config.maxDepth);
    }
  }

  // ----- what an untruncated profile says about the whole tree -----

  lemma {:induction false} DepthDir(d: Directory, rel: string, depth: nat, maxDepth: nat, deeper: nat)
    requires maxDepth <= deeper && Deep !in DirTape(d, rel, depth, maxDepth)
    ensures DirTape(d, rel, depth, deeper) == DirTape(d, rel, depth, maxDepth)
    decreases d, 1
  {
    if d.Readable? {
      DepthEntries(d.entries, rel, depth, maxDepth, deeper);
    }
  }

  lemma {:induction false} DepthEntries(entries: seq<Entry>, rel: string, depth: nat, maxDepth: nat, deeper: nat)
    requires maxDepth <= deeper && Deep !in EntriesTape(entries, rel, depth, maxDepth)
    ensures EntriesTape(entries, rel, depth, deeper) == EntriesTape(entries, rel, depth, maxDepth)
    decreases entries, 0
  {
    hide EntryTape;
    if entries != [] {
      DepthEntry(entries[0], rel, depth, maxDepth, deeper);
      DepthEntries(entries[1..], rel, depth, maxDepth, deeper);
    }
  }

  lemma {:induction false} DepthEntry(e: Entry, rel: string, depth: nat, maxDepth: nat, deeper: nat)
    requires maxDepth <= deeper && Deep !in EntryTape(e, rel, depth, maxDepth)
    ensures EntryTape(e, rel, depth, deeper) == EntryTape(e, rel, depth, maxDepth)
    decreases e, 0
  {
    hide SafeName, SkippedName, Bytes, DirTape;
    var tape := EntryTape(e, rel, depth, maxDepth);
    if e.node.Dir? && e.name.Utf8? && depth < maxDepth {
      var child := JoinRel(rel, e.name.text);
      if tape == [Path(child)] + DirTape(e.node.dir, child, depth + 1, maxDepth) {
        DepthDir(e.node.dir, child, depth + 1, maxDepth, deeper);
      }
    }
  }

  /** An untruncated profile lists every admissible entry of the whole tree, at any depth. */
  lemma UntruncatedIsComplete(d: Directory, config: Config, deeper: nat)
    requires NoFail(Tape(d, config.maxDepth)) && config.maxDepth <= deeper
    ensures var s := ReadTape(EMPTY, Tape(d, config.maxDepth), config.maxPaths).0;
            !s.truncated ==> s.paths == Listing(d, deeper)
  {
    hide DirTape, ReadTape, SortDir;
    var tape := Tape(d, config.maxDepth);
    BoundedTape(tape, config.maxPaths);
    if Deep !in tape {
      DepthDir(SortDir(d), "", 0, config.maxDepth, deeper);
      if !CapHit(tape, config.maxPaths) {
        UncappedFits(tape, config.maxPaths);
      }
    }
  }

  /** A walk that never hits the cap found no more paths than it. */
  lemma {:induction false} UncappedFits(tape: seq<Event>, maxPaths: nat)
    requires !CapHit(tape, maxPaths)
    ensures |PathsOf(tape)| <= maxPaths
  {
    if tape != [] {
      var front, e := tape[..|tape| - 1], tape[|tape| - 1];
      assert tape == front + [e];
      CapHitSnoc(front, e, maxPaths);
      UncappedFits(front, maxPaths);
    }
  }

  // ----- which entries are listed -----

  predicate Admissible(name: Name, rel: string) {
    name.Utf8? && SafeName(name.text) && !SkippedName(name.text) && Bytes(JoinRel(rel, name.text)) <= MAX_PATH_LEN
  }

  /** Following `names` from entry `e` passes only admissible names and real readable directories
      above the depth limit, and ends at a file or directory. */
  ghost predicate Leads(e: Entry, names: seq<string>, rel: string, depth: nat, maxDepth: nat)
    decreases |names|, 0
  {
    && names != [] && Admissible(e.name, rel) && e.name.text == names[0]
    && if |names| == 1 then e.node.File? || e.node.Dir?
       else e.node.Dir? && e.node.dir.Readable? && depth < maxDepth
            && LeadsAmong(e.node.dir.entries, names[1..], JoinRel(rel, names[0]), depth + 1, maxDepth)
  }

  ghost predicate LeadsAmong(entries: seq<Entry>, names: seq<string>, rel: string, depth: nat, maxDepth: nat)
    decreases |names|, 1
  {
    exists e | e in entries :: Leads(e, names, rel, depth, maxDepth)
  }

  function JoinAll(rel: string, names: seq<string>): string
    decreases names
  {
    if names == [] then rel else JoinAll(JoinRel(rel, names[0]), names[1..])
  }

  lemma {:induction false} PathsAppend(a: seq<Event>, b: seq<Event>)
    ensures PathsOf(a + b) == PathsOf(a) + PathsOf(b)
  {
    if b == [] {
      assert a + b == a;
    } else {
      assert (a + b)[..|a + b| - 1] == a + b[..|b| - 1];
      PathsAppend(a, b[..|b| - 1]);
    }
  }

  lemma PathsOne(e: Event)
    ensures PathsOf([e]) == if e.Path? then [e.p] else []
  {
    assert [e][..0] == [];
  }

  /** The tape of an admissible directory above the limit: its own path, then its entries'. */
  lemma OpenedTape(e: Entry, rel: string, depth: nat, maxDepth: nat)
    requires Admissible(e.name, rel) && e.node.Dir? && e.node.dir.Readable? && depth < maxDepth
    ensures var child := JoinRel(rel, e.name.text);
            PathsOf(EntryTape(e, rel, depth, maxDepth))
            == [child] + PathsOf(EntriesTape(e.node.dir.entries, child, depth + 1, maxDepth))
  {
    hide SafeName, SkippedName, Bytes, EntriesTape;
    var child := JoinRel(rel, e.name.text);
    var inner := EntriesTape(e.node.dir.entries, child, depth + 1, maxDepth);
    assert EntryTape(e, rel, depth, maxDepth) == [Path(child)] + ([Enter] + inner);
    hide EntryTape, PathsOf;
    PathsAppend([Path(child)], [Enter] + inner);
    PathsAppend([Enter], inner);
    PathsOne(Path(child));
    PathsOne(Enter);
  }

  lemma PathsFew(child: string, at: string)
    ensures PathsOf([Path(child), Deep]) == [child]
    ensures PathsOf([Path(child)] + [Enter, Fail(at)]) == [child]
  {
    PathsOne(Path(child));
    PathsOne(Deep);
    PathsOne(Enter);
    PathsOne(Fail(at));
    assert [Path(child), Deep] == [Path(child)] + [Deep] && [Enter, Fail(at)] == [Enter] + [Fail(at)];
    PathsAppend([Path(child)], [Deep]);
    PathsAppend([Enter], [Fail(at)]);
    PathsAppend([Path(child)], [Enter, Fail(at)]);
  }

  lemma ClosedTape(e: Entry, rel: string, depth: nat, maxDepth: nat)
    requires !(Admissible(e.name, rel) && e.node.Dir? && e.node.dir.Readable? && depth < maxDepth)
    ensures PathsOf(EntryTape(e, rel, depth, maxDepth))
            == if Admissible(e.name, rel) && (e.node.File? || e.node.Dir?) then [JoinRel(rel, e.name.text)] else []
  {
    hide SafeName, SkippedName, Bytes, PathsOf, EntriesTape;
    var tape := EntryTape(e, rel, depth, maxDepth);
    if |tape| == 1 {
      assert tape == [tape[0]];
      PathsOne(tape[0]);
    } else {
      PathsFew(JoinRel(rel, e.name.text), JoinRel(rel, e.name.text));
    }
  }

  lemma {:induction false} LeadsListed(e: Entry, names: seq<string>, rel: string, depth: nat, maxDepth: nat)
    requires Leads(e, names, rel, depth, maxDepth)
    ensures JoinAll(rel, names) in PathsOf(EntryTape(e, rel, depth, maxDepth))
    decreases |names|, 0
  {
    hide EntryTape, Admissible;
    var child := JoinRel(rel, names[0]);
    assert JoinAll(rel, names) == JoinAll(child, names[1..]);
    if e.node.Dir? && e.node.dir.Readable? && depth < maxDepth {
      OpenedTape(e, rel, depth, maxDepth);
      if |names| > 1 {
        var entries := e.node.dir.entries;
        var inner :| inner in entries && Leads(inner, names[1..], child, depth + 1, maxDepth);
        LeadsListed(inner, names[1..], child, depth + 1, maxDepth);
        ListedAmong(entries, inner, child, depth + 1, maxDepth, JoinAll(child, names[1..]));
      }
    } else {
      ClosedTape(e, rel, depth, maxDepth);
    }
  }

  lemma {:induction false} ListedAmong(entries: seq<Entry>, e: Entry, rel: string, depth: nat, maxDepth: nat, p: string)
    requires e in entries && p in PathsOf(EntryTape(e, rel, depth, maxDepth))
    ensures p in PathsOf(EntriesTape(entries, rel, depth, maxDepth))
    decreases |entries|
  {
    hide EntryTape;
    PathsAppend(EntryTape(entries[0], rel, depth, maxDepth), EntriesTape(entries[1..], rel, depth, maxDepth));
    if e != entries[0] {
      ListedAmong(entries[1..], e, rel, depth, maxDepth, p);
    }
  }

  lemma {:induction false} ListedLeads(e: Entry, rel: string, depth: nat, maxDepth: nat, p: string)
    returns (names: seq<string>)
    requires p in PathsOf(EntryTape(e, rel, depth, maxDepth))
    ensures Leads(e, names, rel, depth, maxDepth) && JoinAll(rel, names) == p
    decreases e, 0
  {
    hide EntryTape, SafeName, SkippedName, Bytes;
    if Admissible(e.name, rel) && e.node.Dir? && e.node.dir.Readable? && depth < maxDepth {
      OpenedTape(e, rel, depth, maxDepth);
      var child := JoinRel(rel, e.name.text);
      names := [e.name.text];
      if p != child {
        var inner, rest := AmongLeads(e.node.dir.entries, child, depth + 1, maxDepth, p);
        assert LeadsAmong(e.node.dir.entries, rest, child, depth + 1, maxDepth);
        names := [e.name.text] + rest;
        assert names[1..] == rest;
      }
    } else {
      ClosedTape(e, rel, depth, maxDepth);
      names := [e.name.text];
    }
  }

  lemma {:induction false} AmongLeads(entries: seq<Entry>, rel: string, depth: nat, maxDepth: nat, p: string)
    returns (e: Entry, names: seq<string>)
    requires p in PathsOf(EntriesTape(entries, rel, depth, maxDepth))
    ensures e in entries && Leads(e, names, rel, depth, maxDepth) && JoinAll(rel, names) == p
    decreases entries, 0
  {
    hide EntryTape, Leads;
    PathsAppend(EntryTape(entries[0], rel, depth, maxDepth), EntriesTape(entries[1..], rel, depth, maxDepth));
    if p in PathsOf(EntryTape(entries[0], rel, depth, maxDepth)) {
      e := entries[0];
      names := ListedLeads(e, rel, depth, maxDepth, p);
    } else {
      e, names := AmongLeads(entries[1..], rel, depth, maxDepth, p);
    }
  }

  lemma {:induction false} SortedLeads(e: Entry, names: seq<string>, rel: string, depth: nat, maxDepth: nat)
    ensures Leads(SortEntry(e), names, rel, depth, maxDepth) <==> Leads(e, names, rel, depth, maxDepth)
    decreases |names|, 0
  {
    hide Admissible, SortDir;
    if |names| > 1 && e.node.Dir? {
      DirSorts(e.node.dir);
      if e.node.dir.Readable? {
        SortedLeadsAmong(e.node.dir.entries, names[1..], JoinRel(rel, names[0]), depth + 1, maxDepth);
      }
    }
  }

  lemma DirSorts(d: Directory)
    ensures SortDir(d).Readable? <==> d.Readable?
    ensures d.Readable? ==> SortDir(d).entries == Sort(SortEntries(d.entries))
  {
  }

  lemma {:induction false} SortedLeadsAmong(entries: seq<Entry>, names: seq<string>, rel: string, depth: nat,
                                            maxDepth: nat)
    ensures LeadsAmong(Sort(SortEntries(entries)), names, rel, depth, maxDepth)
            <==> LeadsAmong(entries, names, rel, depth, maxDepth)
    decreases |names|, 1
  {
    hide Leads, SortEntry;
    var sorted := Sort(SortEntries(entries));
    forall e ensures e in sorted <==> exists x | x in entries :: SortEntry(x) == e {
      SortHolds(SortEntries(entries), e);
      SortedHolds(entries, e);
    }
    forall x ensures Leads(SortEntry(x), names, rel, depth, maxDepth) <==> Leads(x, names, rel, depth, maxDepth) {
      SortedLeads(x, names, rel, depth, maxDepth);
    }
  }

  lemma {:induction false} NamesNotEmpty(entries: seq<Entry>, names: seq<string>, rel: string, depth: nat,
                                         maxDepth: nat)
    requires LeadsAmong(entries, names, rel, depth, maxDepth)
    ensures names != [] && forall n | n in names :: n != ""
    decreases |names|
  {
    hide SkippedName, Bytes;
    var e :| e in entries && Leads(e, names, rel, depth, maxDepth);
    assert names == [names[0]] + names[1..];
    if |names| > 1 {
      NamesNotEmpty(e.node.dir.entries, names[1..], JoinRel(rel, names[0]), depth + 1, maxDepth);
    }
  }

  lemma {:induction false} JoinAllIs(rel: string, names: seq<string>)
    requires names != [] && forall n | n in names :: n != ""
    ensures JoinAll(rel, names) == if rel == "" then Join(names) else rel + "/" + Join(names)
    decreases |names|
  {
    var child := JoinRel(rel, names[0]);
    assert names[0] in names && child != "";
    assert forall n | n in names[1..] :: n in names;
    if |names| > 1 {
      JoinAllIs(child, names[1..]);
    } else {
      assert names[1..] == [] && JoinAll(child, []) == child;
    }
  }

  /** The listing holds exactly the paths, names with slashes between them, reached through admissible
      names and real readable directories within the depth limit; symlinks are neither listed nor
      followed. */
  lemma ListedIffReached(entries: seq<Entry>, maxDepth: nat, p: string)
    ensures p in Listing(Readable(entries), maxDepth)
            <==> exists names :: names != [] && LeadsAmong(entries, names, "", 0, maxDepth) && Join(names) == p
  {
    hide EntriesTape, EntryTape, LeadsAmong, Sort, JoinAll, Join;
    var sorted := Sort(SortEntries(entries));
    var tape := EntriesTape(sorted, "", 0, maxDepth);
    PathsAppend([Enter], tape);
    PathsOne(Enter);
    assert p in Listing(Readable(entries), maxDepth) <==> p in PathsOf(tape);
    forall names ensures LeadsAmong(sorted, names, "", 0, maxDepth) <==> LeadsAmong(entries, names, "", 0, maxDepth)
      ensures LeadsAmong(entries, names, "", 0, maxDepth) ==> names != [] && JoinAll("", names) == Join(names)
    {
      SortedLeadsAmong(entries, names, "", 0, maxDepth);
      if LeadsAmong(entries, names, "", 0, maxDepth) {
        NamesNotEmpty(entries, names, "", 0, maxDepth);
        JoinAllIs("", names);
      }
    }
    ListedInOrder(sorted, maxDepth, p);
    if p in PathsOf(tape) {
      var names :| LeadsAmong(sorted, names, "", 0, maxDepth) && JoinAll("", names) == p;
      assert LeadsAmong(entries, names, "", 0, maxDepth) && Join(names) == p;
    }
    if names :| names != [] && LeadsAmong(entries, names, "", 0, maxDepth) && Join(names) == p {
      assert LeadsAmong(sorted, names, "", 0, maxDepth) && JoinAll("", names) == p;
    }
  }

  lemma ListedInOrder(entries: seq<Entry>, maxDepth: nat, p: string)
    ensures p in PathsOf(EntriesTape(entries, "", 0, maxDepth))
            <==> exists names :: LeadsAmong(entries, names, "", 0, maxDepth) && JoinAll("", names) == p
  {
    hide EntriesTape, EntryTape, Leads;
    var tape := EntriesTape(entries, "", 0, maxDepth);
    if p in PathsOf(tape) {
      var e, names := AmongLeads(entries, "", 0, maxDepth, p);
      assert LeadsAmong(entries, names, "", 0, maxDepth);
    }
    forall names | LeadsAmong(entries, names, "", 0, maxDepth) && JoinAll("", names) == p
      ensures p in PathsOf(tape)
    {
      var e :| e in entries && Leads(e, names, "", 0, maxDepth);
      LeadsListed(e, names, "", 0, maxDepth);
      ListedAmong(entries, e, "", 0, maxDepth, p);
    }
  }
}
