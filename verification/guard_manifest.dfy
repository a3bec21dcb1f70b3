/** The manifest of a worktree's sibling space: a bounded walk that records every entry it
    meets, and the later check that nothing changed. */
module GuardManifest {
  import opened Foundation
  import opened Names

  const MAX_ENTRIES := 50_000
  const MAX_DEPTH := 32

  datatype GuardEntry = GuardEntry(isDir: bool, len: u64, mtime: Option<u64>)

  /** `Broken`: an entry the listing could not yield. Metadata may be unreadable. A symlink is a
      `File` here: it is recorded and never descended. */
  datatype Entry = Broken | Entry(name: Name, meta: Option<(u64, Option<u64>)>, node: Node)

  datatype Node = File | Dir(dir: Directory)

  datatype Directory = Unreadable | Readable(entries: seq<Entry>)

  datatype Root = Root(path: FsPath, dir: Directory)

  predicate Excluded(path: FsPath, exclude: seq<FsPath>) {
    exists ex | ex in exclude :: ex <= path
  }

  function Recorded(e: Entry): GuardEntry
    requires e.Entry? && e.meta.Some?
  {
    GuardEntry(e.node.Dir?, e.meta.value.0, e.meta.value.1)
  }

  // ----- the walk without its entry cap -----

  datatype Event = Rec(path: FsPath, entry: GuardEntry) | Passed | TooDeep

  function DirTape(d: Directory, path: FsPath, exclude: seq<FsPath>, depth: nat): seq<Event>
    decreases d, 1
  {
    if depth > MAX_DEPTH then [TooDeep] else
    match d
    case Unreadable => []
    case Readable(entries) => EntriesTape(entries, path, exclude, depth)
  }

  function EntriesTape(entries: seq<Entry>, path: FsPath, exclude: seq<FsPath>, depth: nat): seq<Event>
    decreases entries, 0
  {
    if entries == [] then [] else
    EntryTape(entries[0], path, exclude, depth) + EntriesTape(entries[1..], path, exclude, depth)
  }

  function EntryTape(e: Entry, path: FsPath, exclude: seq<FsPath>, depth: nat): seq<Event>
    decreases e, 0
  {
    if e.Broken? then []
    else
      var child := path + [e.name];
      if Excluded(child, exclude) || e.meta.None? then [Passed]
      else match e.node
        case File => [Rec(child, Recorded(e))]
        case Dir(d) => [Rec(child, Recorded(e))] + DirTape(d, child, exclude, depth + 1)
  }

  function RootsTape(roots: seq<Root>, exclude: seq<FsPath>): seq<Event> {
    if roots == [] then [] else
    RootsTape(roots[..|roots| - 1], exclude) + DirTape(roots[|roots| - 1].dir, roots[|roots| - 1].path, exclude, 0)
  }

  // ----- the walk with its cap, reading that tape -----

  type Entries = map<FsPath, GuardEntry>

  datatype Manifest = Manifest(entries: Entries, truncated: bool)

  const EMPTY := Manifest(map[], false)

  function Read(m: Manifest, e: Event, cap: nat): Manifest {
    if e.TooDeep? || |m.entries| >= cap then m.(truncated := true)
    else if e.Rec? then m.(entries := m.entries[e.path := e.entry])
    else m
  }

  function ReadTape(m: Manifest, tape: seq<Event>, cap: nat): Manifest {
    if tape == [] then m else Read(ReadTape(m, tape[..|tape| - 1], cap), tape[|tape| - 1], cap)
  }

  lemma {:induction false} ReadAppend(m: Manifest, a: seq<Event>, b: seq<Event>, cap: nat)
    ensures ReadTape(m, a + b, cap) == ReadTape(ReadTape(m, a, cap), b, cap)
  {
    if b == [] {
      assert a + b == a;
    } else {
      assert (a + b)[..|a + b| - 1] == a + b[..|b| - 1];
      ReadAppend(m, a, b[..|b| - 1], cap);
    }
  }

  /** Once the cap is reached nothing more is recorded. */
  lemma {:induction false} FullStays(m: Manifest, tape: seq<Event>, cap: nat)
    requires |m.entries| >= cap
    ensures ReadTape(m, tape, cap) == if tape == [] then m else m.(truncated := true)
  {
    if tape != [] {
      FullStays(m, tape[..|tape| - 1], cap);
    }
  }

  class Walk {
    var entries: Entries
    var truncated: bool

    constructor ()
      ensures State() == EMPTY
    {
      entries, truncated := map[], false;
    }

    ghost function State(): Manifest
      reads this
    {
      Manifest(entries, truncated)
    }
  }

  method WalkGuard(d: Directory, path: FsPath, exclude: seq<FsPath>, depth: nat, w: Walk)
    modifies w
    ensures w.State() == ReadTape(old(w.State()), DirTape(d, path, exclude, depth), MAX_ENTRIES)
    decreases d, 1
  {
    hide EntryTape, Excluded;
    if depth > MAX_DEPTH {
      ReadOne(w.State(), TooDeep, MAX_ENTRIES);
      w.truncated := true;
      return;
    }
    if d.Unreadable? {
      return;
    }
    var list := d.entries;
    ghost var start := w.State();
    ghost var whole := EntriesTape(list, path, exclude, depth);
    for i := 0 to |list|
      invariant ReadTape(start, whole, MAX_ENTRIES)
             == ReadTape(w.State(), EntriesTape(list[i..], path, exclude, depth), MAX_ENTRIES)
    {
      hide ReadTape;
      var e := list[i];
      assert list[i..][0] == e && list[i..][1..] == list[i + 1..];
      ReadAppend(w.State(), EntryTape(e, path, exclude, depth), EntriesTape(list[i + 1..], path, exclude, depth),
                 MAX_ENTRIES);
      if e.Entry? && |w.entries| >= MAX_ENTRIES {
        FullStays(w.State(), EntriesTape(list[i..], path, exclude, depth), MAX_ENTRIES);
        EntrySpeaks(e, path, exclude, depth);
        w.truncated := true;
        return;
      }
      WalkEntry(e, path, exclude, depth, w);
    }
  }

  lemma EntrySpeaks(e: Entry, path: FsPath, exclude: seq<FsPath>, depth: nat)
    requires e.Entry?
    ensures EntryTape(e, path, exclude, depth) != []
  {
  }

  lemma ReadOne(m: Manifest, e: Event, cap: nat)
    ensures ReadTape(m, [e], cap) == Read(m, e, cap)
  {
    assert [e][..0] == [];
  }

  method WalkEntry(e: Entry, path: FsPath, exclude: seq<FsPath>, depth: nat, w: Walk)
    requires e.Entry? ==> |w.entries| < MAX_ENTRIES
    modifies w
    ensures w.State() == ReadTape(old(w.State()), EntryTape(e, path, exclude, depth), MAX_ENTRIES)
    decreases e, 0
  {
    hide ReadTape, DirTape;
    if e.Broken? {
      ReadNone(w.State(), MAX_ENTRIES);
      return;
    }
    var child := path + [e.name];
    if (exists ex | ex in exclude :: ex <= child) || e.meta.None? {
      ReadOne(w.State(), Passed, MAX_ENTRIES);
      return;
    }
    var ge := GuardEntry(e.node.Dir?, e.meta.value.0, e.meta.value.1);
    ReadOne(w.State(), Rec(child, ge), MAX_ENTRIES);
    if e.node.Dir? {
      ReadAppend(w.State(), [Rec(child, ge)], DirTape(e.node.dir, child, exclude, depth + 1), MAX_ENTRIES);
    }
    w.entries := w.entries[child := ge];
    if e.node.Dir? {
      WalkGuard(e.node.dir, child, exclude, depth + 1, w);
    }
  }

  lemma ReadNone(m: Manifest, cap: nat)
    ensures ReadTape(m, [], cap) == m
  {
  }

  ghost function ManifestOf(roots: seq<Root>, exclude: seq<FsPath>): Manifest {
    ReadTape(EMPTY, RootsTape(roots, exclude), MAX_ENTRIES)
  }

  method Snapshot(roots: seq<Root>, exclude: seq<FsPath>) returns (m: Manifest)
    ensures m == ManifestOf(roots, exclude)
  {
    hide DirTape, ReadTape;
    var w := new Walk();
    ReadNone(EMPTY, MAX_ENTRIES);
    for i := 0 to |roots|
      invariant w.State() == ReadTape(EMPTY, RootsTape(roots[..i], exclude), MAX_ENTRIES)
    {
      TakeSnoc(roots, i);
      ReadAppend(EMPTY, RootsTape(roots[..i], exclude), DirTape(roots[i].dir, roots[i].path, exclude, 0), MAX_ENTRIES);
      WalkGuard(roots[i].dir, roots[i].path, exclude, 0, w);
    }
    assert roots[..|roots|] == roots;
    m := Manifest(w.entries, w.truncated);
  }

  /** The recorded paths that are gone or changed. */
  function Lost(before: Entries, now: Entries): set<FsPath> {
    set p | p in before && !(p in now && now[p] == before[p])
  }

  /** Re-walks and compares: every recorded path must be there unchanged, and no other. Names the
      first recorded path that is not, or else the first new one. */
  method Check(before: Manifest, rootsNow: seq<Root>, exclude: seq<FsPath>) returns (r: Result<(), FsPath>)
    ensures r.Ok? <==> before.entries == ManifestOf(rootsNow, exclude).entries
    ensures r.Err? ==> var now := ManifestOf(rootsNow, exclude).entries;
              var lost := Lost(before.entries, now);
              IsFirst(r.error, if lost != {} then lost else now.Keys - before.entries.Keys)
  {
    hide RootsTape, ReadTape, PathLe;
    var now := Snapshot(rootsNow, exclude);
    var left := before.entries.Keys;
    while left != {}
      invariant left <= before.entries.Keys && Lost(before.entries, now.entries) <= left
      decreases |left|
    {
      ghost var first := FirstExists(left);
      var p :| p in left && forall q | q in left :: PathLe(p, q);
      if p !in now.entries || now.entries[p] != before.entries[p] {
        assert p in Lost(before.entries, now.entries);
        return Err(p);
      }
      left := left - {p};
    }
    left := now.entries.Keys;
    while left != {}
      invariant left <= now.entries.Keys && now.entries.Keys - before.entries.Keys <= left
      decreases |left|
    {
      ghost var first := FirstExists(left);
      var p :| p in left && forall q | q in left :: PathLe(p, q);
      if p !in before.entries {
        return Err(p);
      }
      left := left - {p};
    }
    SameEntries(before.entries, now.entries);
    r := Ok(());
  }

  lemma SameEntries(before: Entries, now: Entries)
    requires Lost(before, now) == {} && now.Keys <= before.Keys
    ensures before == now
  {
    forall p | p in before ensures p in now && now[p] == before[p] {
      assert p !in Lost(before, now);
    }
    assert before.Keys == now.Keys;
  }

  // ----- bounded, and exact when not truncated -----

  lemma {:induction false} CapHolds(tape: seq<Event>, cap: nat)
    ensures |ReadTape(EMPTY, tape, cap).entries| <= cap
  {
    if tape != [] {
      CapHolds(tape[..|tape| - 1], cap);
      var m, e := ReadTape(EMPTY, tape[..|tape| - 1], cap), tape[|tape| - 1];
      if e.Rec? {
        assert m.entries[e.path := e.entry].Keys == m.entries.Keys + {e.path};
        assert |m.entries[e.path := e.entry]| == |m.entries[e.path := e.entry].Keys| && |m.entries| == |m.entries.Keys|;
      }
    }
  }

  /** Everything recorded along a tape, with no cap. */
  function AllRecs(tape: seq<Event>): Entries {
    if tape == [] then map[] else
    var before, e := AllRecs(tape[..|tape| - 1]), tape[|tape| - 1];
    if e.Rec? then before[e.path := e.entry] else before
  }

  lemma {:induction false} UntruncatedReads(tape: seq<Event>, cap: nat)
    requires !ReadTape(EMPTY, tape, cap).truncated
    ensures ReadTape(EMPTY, tape, cap).entries == AllRecs(tape) && TooDeep !in tape
  {
    if tape != [] {
      UntruncatedReads(tape[..|tape| - 1], cap);
      assert tape == tape[..|tape| - 1] + [tape[|tape| - 1]];
    }
  }

  lemma {:induction false} RecsAre(tape: seq<Event>, p: FsPath)
    ensures p in AllRecs(tape) <==> exists ge :: Rec(p, ge) in tape
    ensures p in AllRecs(tape) ==> Rec(p, AllRecs(tape)[p]) in tape
  {
    if tape != [] {
      var front, e := tape[..|tape| - 1], tape[|tape| - 1];
      RecsAre(front, p);
      assert tape == front + [e];
      forall ge ensures Rec(p, ge) in tape <==> Rec(p, ge) in front || e == Rec(p, ge) {
      }
    }
  }

  /** Following `names` from `e`, at `path`, passes only unexcluded entries with readable metadata
      and real readable directories, and ends at an entry recorded as `ge`. */
  ghost predicate Leads(e: Entry, names: FsPath, path: FsPath, exclude: seq<FsPath>, ge: GuardEntry)
    decreases |names|, 0
  {
    && names != [] && e.Entry? && e.name == names[0] && e.meta.Some? && !Excluded(path + [e.name], exclude)
    && if |names| == 1 then ge == Recorded(e)
       else e.node.Dir? && e.node.dir.Readable?
            && LeadsAmong(e.node.dir.entries, names[1..], path + [e.name], exclude, ge)
  }

  ghost predicate LeadsAmong(entries: seq<Entry>, names: FsPath, path: FsPath, exclude: seq<FsPath>, ge: GuardEntry)
    decreases |names|, 1
  {
    exists e | e in entries :: Leads(e, names, path, exclude, ge)
  }

  lemma {:induction false} LeadsRecorded(e: Entry, names: FsPath, path: FsPath, exclude: seq<FsPath>, depth: nat,
                                         ge: GuardEntry)
    requires Leads(e, names, path, exclude, ge) && TooDeep !in EntryTape(e, path, exclude, depth)
    ensures Rec(path + names, ge) in EntryTape(e, path, exclude, depth)
    decreases |names|, 0
  {
    hide Excluded, EntriesTape;
    var child := path + [e.name];
    if |names| == 1 {
      assert path + names == child;
    } else {
      var entries, rest := e.node.dir.entries, names[1..];
      var inner :| inner in entries && Leads(inner, rest, child, exclude, ge);
      var tape := DirTape(e.node.dir, child, exclude, depth + 1);
      assert EntryTape(e, path, exclude, depth) == [Rec(child, Recorded(e))] + tape;
      assert depth + 1 <= MAX_DEPTH by {
        assert depth + 1 > MAX_DEPTH ==> TooDeep in tape;
      }
      RecordedAmong(entries, inner, rest, child, exclude, depth + 1, ge);
      assert path + names == child + rest;
    }
  }

  lemma {:induction false} RecordedAmong(entries: seq<Entry>, e: Entry, names: FsPath, path: FsPath,
                                         exclude: seq<FsPath>, depth: nat, ge: GuardEntry)
    requires e in entries && Leads(e, names, path, exclude, ge)
             && TooDeep !in EntriesTape(entries, path, exclude, depth)
    ensures Rec(path + names, ge) in EntriesTape(entries, path, exclude, depth)
    decreases |names|, 1, |entries|
  {
    hide EntryTape, Leads;
    if e == entries[0] {
      LeadsRecorded(e, names, path, exclude, depth, ge);
    } else {
      RecordedAmong(entries[1..], e, names, path, exclude, depth, ge);
    }
  }

  lemma {:induction false} RecordedLeads(e: Entry, path: FsPath, exclude: seq<FsPath>, depth: nat, p: FsPath,
                                         ge: GuardEntry)
    returns (names: FsPath)
    requires Rec(p, ge) in EntryTape(e, path, exclude, depth)
    ensures Leads(e, names, path, exclude, ge) && p == path + names
    decreases e, 0
  {
    hide Excluded, EntriesTape;
    var child := path + [e.name];
    names := [e.name];
    if Rec(p, ge) != Rec(child, Recorded(e)) {
      var inner, rest := AmongLeads(e.node.dir.entries, child, exclude, depth + 1, p, ge);
      assert LeadsAmong(e.node.dir.entries, rest, child, exclude, ge);
      names := [e.name] + rest;
      assert names[1..] == rest && path + names == child + rest;
    }
  }

  lemma {:induction false} AmongLeads(entries: seq<Entry>, path: FsPath, exclude: seq<FsPath>, depth: nat, p: FsPath,
                                      ge: GuardEntry)
    returns (e: Entry, names: FsPath)
    requires Rec(p, ge) in EntriesTape(entries, path, exclude, depth)
    ensures e in entries && Leads(e, names, path, exclude, ge) && p == path + names
    decreases entries, 0
  {
    hide EntryTape, Leads;
    if Rec(p, ge) in EntryTape(entries[0], path, exclude, depth) {
      e := entries[0];
      names := RecordedLeads(e, path, exclude, depth, p, ge);
    } else {
      e, names := AmongLeads(entries[1..], path, exclude, depth, p, ge);
    }
  }

  /** `p` is met below one of the roots, without following symlinks or entering excluded subtrees. */
  ghost predicate Met(roots: seq<Root>, exclude: seq<FsPath>, p: FsPath, ge: GuardEntry) {
    exists r, names | r in roots && r.dir.Readable? ::
      LeadsAmong(r.dir.entries, names, r.path, exclude, ge) && p == r.path + names
  }

  lemma {:induction false} RootsRecord(roots: seq<Root>, exclude: seq<FsPath>, p: FsPath, ge: GuardEntry)
    requires TooDeep !in RootsTape(roots, exclude)
    ensures Rec(p, ge) in RootsTape(roots, exclude) <==> Met(roots, exclude, p, ge)
  {
    hide EntriesTape, LeadsAmong;
    if roots != [] {
      var front, r := roots[..|roots| - 1], roots[|roots| - 1];
      RootsRecord(front, exclude, p, ge);
      RootRecords(r, exclude, p, ge);
      assert roots == front + [r];
      if Met(front, exclude, p, ge) {
        var x, names :| x in front && x.dir.Readable? && LeadsAmong(x.dir.entries, names, x.path, exclude, ge)
            && p == x.path + names;
        assert x in roots;
      }
    }
  }

  lemma RootRecords(r: Root, exclude: seq<FsPath>, p: FsPath, ge: GuardEntry)
    requires TooDeep !in DirTape(r.dir, r.path, exclude, 0)
    ensures Rec(p, ge) in DirTape(r.dir, r.path, exclude, 0)
            <==> r.dir.Readable? && exists names ::
                   LeadsAmong(r.dir.entries, names, r.path, exclude, ge) && p == r.path + names
  {
    hide Leads, EntriesTape;
    if r.dir.Readable? {
      var entries := r.dir.entries;
      if Rec(p, ge) in EntriesTape(entries, r.path, exclude, 0) {
        var e, names := AmongLeads(entries, r.path, exclude, 0, p, ge);
        assert LeadsAmong(entries, names, r.path, exclude, ge);
      }
      forall names | LeadsAmong(entries, names, r.path, exclude, ge) && p == r.path + names
        ensures Rec(p, ge) in EntriesTape(entries, r.path, exclude, 0)
      {
        var e :| e in entries && Leads(e, names, r.path, exclude, ge);
        RecordedAmong(entries, e, names, r.path, exclude, 0, ge);
      }
    }
  }

  /** A walk records at most 50,000 entries; one that was not truncated recorded exactly the
      entries met below the roots, each with metadata it was met with. */
  lemma ManifestExact(roots: seq<Root>, exclude: seq<FsPath>)
    ensures var m := ManifestOf(roots, exclude);
            && |m.entries| <= 50_000
            && (!m.truncated ==>
                  && (forall p :: p in m.entries <==> exists ge :: Met(roots, exclude, p, ge))
                  && (forall p | p in m.entries :: Met(roots, exclude, p, m.entries[p])))
  {
    hide RootsTape, ReadTape, Met;
    var tape := RootsTape(roots, exclude);
    var m := ManifestOf(roots, exclude);
    CapHolds(tape, MAX_ENTRIES);
    if !m.truncated {
      UntruncatedReads(tape, MAX_ENTRIES);
      forall p, ge ensures Rec(p, ge) in tape <==> Met(roots, exclude, p, ge) {
        RootsRecord(roots, exclude, p, ge);
      }
      forall p ensures p in m.entries <==> exists ge :: Met(roots, exclude, p, ge) {
        RecsAre(tape, p);
        if p in m.entries {
          assert Met(roots, exclude, p, m.entries[p]);
        }
        if exists ge :: Met(roots, exclude, p, ge) {
          var ge :| Met(roots, exclude, p, ge);
          assert Rec(p, ge) in tape;
        }
      }
      forall p | p in m.entries ensures Met(roots, exclude, p, m.entries[p]) {
        RecsAre(tape, p);
      }
    }
  }

  /** What a walk makes of a directory with one entry, unless that is a directory with entries: the
      entry is recorded, with its kind, size and time, exactly when it was listed, its metadata can
      be read, and neither it nor a directory above it is excluded. */
  lemma OneEntryManifest(path: FsPath, e: Entry, exclude: seq<FsPath>)
    requires e.Entry? && e.node.Dir? ==> e.node.dir == Readable([])
    ensures var m := ManifestOf([Root(path, Readable([e]))], exclude);
            && !m.truncated
            && (e.Broken? ==> m.entries == map[])
            && (e.Entry? ==>
                  var p := path + [e.name];
                  var spared := forall ex | ex in exclude :: |ex| > |p| || p[..|ex|] != ex;
                  m.entries == if spared && e.meta.Some?
                               then map[p := GuardEntry(e.node.Dir?, e.meta.value.0, e.meta.value.1)] else map[])
  {
    hide EntriesTape, EntryTape, DirTape, RootsTape, ReadTape;
    var r := Root(path, Readable([e]));
    OneRoot(r, exclude);
    OpenTape([e], path, exclude);
    OneEntry(e, path, exclude, 0);
    if e.Broken? {
      NothingMet(e, path, exclude);
      ReadNone(EMPTY, MAX_ENTRIES);
    } else {
      EntryMet(e, path, exclude);
      var tape := EntryTape(e, path, exclude, 0);
      assert tape == [tape[0]];
      ReadOne(EMPTY, tape[0], MAX_ENTRIES);
    }
  }

  lemma OpenTape(entries: seq<Entry>, path: FsPath, exclude: seq<FsPath>)
    ensures DirTape(Readable(entries), path, exclude, 0) == EntriesTape(entries, path, exclude, 0)
  {
    hide EntriesTape;
  }

  lemma NothingMet(e: Entry, path: FsPath, exclude: seq<FsPath>)
    requires e.Broken?
    ensures EntryTape(e, path, exclude, 0) == []
  {
  }

  lemma EntryMet(e: Entry, path: FsPath, exclude: seq<FsPath>)
    requires e.Entry? && (e.node.Dir? ==> e.node.dir == Readable([]))
    ensures var p := path + [e.name];
            var spared := forall ex | ex in exclude :: |ex| > |p| || p[..|ex|] != ex;
            EntryTape(e, path, exclude, 0)
            == if spared && e.meta.Some? then [Rec(p, GuardEntry(e.node.Dir?, e.meta.value.0, e.meta.value.1))]
               else [Passed]
  {
    var p := path + [e.name];
    if e.node.Dir? {
      assert DirTape(e.node.dir, p, exclude, 1) == EntriesTape([], p, exclude, 1) == [];
    }
    forall ex | ex in exclude ensures ex <= p <==> |ex| <= |p| && p[..|ex|] == ex {
    }
  }

  // ----- excluded subtrees -----

  /** A tree with everything excluded replaced by an empty marker of the same name. */
  function PruneDir(d: Directory, path: FsPath, exclude: seq<FsPath>): Directory
    decreases d, 1
  {
    match d
    case Unreadable => Unreadable
    case Readable(entries) => Readable(PruneEntries(entries, path, exclude))
  }

  function PruneEntries(entries: seq<Entry>, path: FsPath, exclude: seq<FsPath>): seq<Entry>
    decreases entries, 0
  {
    if entries == [] then [] else [PruneEntry(entries[0], path, exclude)] + PruneEntries(entries[1..], path, exclude)
  }

  function PruneEntry(e: Entry, path: FsPath, exclude: seq<FsPath>): Entry
    decreases e, 0
  {
    if e.Broken? then Broken
    else if Excluded(path + [e.name], exclude) then Entry(e.name, None, File)
    else if e.node.Dir? then e.(node := Dir(PruneDir(e.node.dir, path + [e.name], exclude)))
    else e
  }

  lemma {:induction false} PrunedDir(d: Directory, path: FsPath, exclude: seq<FsPath>, depth: nat)
    ensures DirTape(PruneDir(d, path, exclude), path, exclude, depth) == DirTape(d, path, exclude, depth)
    decreases d, 1
  {
    if d.Readable? {
      PrunedEntries(d.entries, path, exclude, depth);
    }
  }

  lemma {:induction false} PrunedEntries(entries: seq<Entry>, path: FsPath, exclude: seq<FsPath>, depth: nat)
    ensures EntriesTape(PruneEntries(entries, path, exclude), path, exclude, depth)
            == EntriesTape(entries, path, exclude, depth)
    decreases entries, 0
  {
    hide EntryTape, PruneEntry;
    if entries != [] {
      PrunedEntry(entries[0], path, exclude, depth);
      PrunedEntries(entries[1..], path, exclude, depth);
      var pruned := PruneEntries(entries, path, exclude);
      assert pruned[0] == PruneEntry(entries[0], path, exclude);
      assert pruned[1..] == PruneEntries(entries[1..], path, exclude);
    }
  }

  lemma {:induction false} PrunedEntry(e: Entry, path: FsPath, exclude: seq<FsPath>, depth: nat)
    ensures EntryTape(PruneEntry(e, path, exclude), path, exclude, depth) == EntryTape(e, path, exclude, depth)
    decreases e, 0
  {
    hide Excluded, DirTape, PruneDir;
    if e.Entry? && e.node.Dir? {
      PrunedDir(e.node.dir, path + [e.name], exclude, depth + 1);
    }
  }

  /** Two file systems that differ only inside excluded subtrees have the same manifest, so what
      happens there never affects a verdict. */
  lemma {:induction false} ExcludedIrrelevant(a: seq<Root>, b: seq<Root>, exclude: seq<FsPath>)
    requires |a| == |b|
    requires forall i | 0 <= i < |a| ::
               a[i].path == b[i].path
                   && PruneDir(a[i].dir, a[i].path, exclude) == PruneDir(b[i].dir, b[i].path, exclude)
    ensures RootsTape(a, exclude) == RootsTape(b, exclude) && ManifestOf(a, exclude) == ManifestOf(b, exclude)
  {
    hide DirTape, PruneDir, ReadTape;
    if a != [] {
      var i := |a| - 1;
      ExcludedIrrelevant(a[..i], b[..i], exclude);
      PrunedDir(a[i].dir, a[i].path, exclude, 0);
      PrunedDir(b[i].dir, b[i].path, exclude, 0);
    }
  }

  // ----- exactly what a walk records -----

  /** The part of the tape that is read before the cap stops the recording. */
  function Reached(tape: seq<Event>, cap: nat): seq<Event> {
    if tape == [] then [] else
    var front := Reached(tape[..|tape| - 1], cap);
    if |front| < |tape| - 1 || |AllRecs(front)| >= cap then front else tape
  }

  lemma {:induction false} ReachedIsPrefix(tape: seq<Event>, cap: nat)
    ensures Reached(tape, cap) <= tape
    ensures |Reached(tape, cap)| < |tape| ==> |AllRecs(Reached(tape, cap))| >= cap
  {
    hide AllRecs;
    if tape != [] {
      ReachedIsPrefix(tape[..|tape| - 1], cap);
    }
  }

  lemma OneMore(tape: seq<Event>, cap: nat)
    requires tape != []
    ensures var front, e := tape[..|tape| - 1], tape[|tape| - 1];
            && ReadTape(EMPTY, tape, cap) == Read(ReadTape(EMPTY, front, cap), e, cap)
            && AllRecs(tape) == (if e.Rec? then AllRecs(front)[e.path := e.entry] else AllRecs(front))
            && (TooDeep in tape <==> TooDeep in front || e == TooDeep)
  {
    assert tape == tape[..|tape| - 1] + [tape[|tape| - 1]];
  }

  /** A walk records exactly what it meets before the cap, and is truncated exactly when it stops
      short or meets a directory that is too deep. */
  lemma {:induction false} ReadIs(tape: seq<Event>, cap: nat)
    ensures var m := ReadTape(EMPTY, tape, cap);
            && m.entries == AllRecs(Reached(tape, cap))
            && (m.truncated <==> TooDeep in tape || |Reached(tape, cap)| < |tape|)
  {
    if tape != [] {
      hide ReadTape, AllRecs;
      var front := tape[..|tape| - 1];
      ReadIs(front, cap);
      ReachedIsPrefix(front, cap);
      OneMore(tape, cap);
      assert |Reached(front, cap)| == |front| ==> Reached(front, cap) == front;
    }
  }

  // ----- changing one listing -----

  /** The walk would pass from `d`, at `path`, through the entries numbered by `route`, down to a
      readable directory, whatever its depth. */
  predicate Walkable(d: Directory, route: seq<nat>, path: FsPath, exclude: seq<FsPath>)
    decreases |route|
  {
    && d.Readable?
    && (route == [] ||
        (&& route[0] < |d.entries|
         && var e := d.entries[route[0]];
         && Recordable(e, path, exclude) && e.node.Dir?
         && Walkable(e.node.dir, route[1..], path + [e.name], exclude)))
  }

  predicate Recordable(e: Entry, path: FsPath, exclude: seq<FsPath>) {
    e.Entry? && e.meta.Some? && !Excluded(path + [e.name], exclude)
  }

  /** The listing at the end of the route. */
  function Listing(d: Directory, route: seq<nat>, path: FsPath, exclude: seq<FsPath>): seq<Entry>
    requires Walkable(d, route, path, exclude)
    decreases |route|
  {
    if route == [] then d.entries else
    var e := d.entries[route[0]];
    Listing(e.node.dir, route[1..], path + [e.name], exclude)
  }

  function PathTo(d: Directory, route: seq<nat>, path: FsPath, exclude: seq<FsPath>): FsPath
    requires Walkable(d, route, path, exclude)
    decreases |route|
  {
    if route == [] then path else
    var e := d.entries[route[0]];
    PathTo(e.node.dir, route[1..], path + [e.name], exclude)
  }

  /** The tree with another listing at the end of the route and everything else as it was. */
  function Relisted(d: Directory, route: seq<nat>, path: FsPath, exclude: seq<FsPath>, listing: seq<Entry>): Directory
    requires Walkable(d, route, path, exclude)
    decreases |route|
  {
    if route == [] then Readable(listing) else
    var e := d.entries[route[0]];
    var inner := Relisted(e.node.dir, route[1..], path + [e.name], exclude, listing);
    Readable(d.entries[route[0] := e.(node := Dir(inner))])
  }

  /** What the walk meets before it opens the directory at the end of the route. */
  function TapeBefore(d: Directory, route: seq<nat>, path: FsPath, exclude: seq<FsPath>, depth: nat): seq<Event>
    requires Walkable(d, route, path, exclude)
    decreases |route|
  {
    if route == [] then [] else
    var i, e := route[0], d.entries[route[0]];
    EntriesTape(d.entries[..i], path, exclude, depth) + [Rec(path + [e.name], Recorded(e))]
    + TapeBefore(e.node.dir, route[1..], path + [e.name], exclude, depth + 1)
  }

  function TapeAfter(d: Directory, route: seq<nat>, path: FsPath, exclude: seq<FsPath>, depth: nat): seq<Event>
    requires Walkable(d, route, path, exclude)
    decreases |route|
  {
    if route == [] then [] else
    var i, e := route[0], d.entries[route[0]];
    TapeAfter(e.node.dir, route[1..], path + [e.name], exclude, depth + 1)
        + EntriesTape(d.entries[i + 1..], path, exclude, depth)
  }

  lemma {:induction false} EntriesAppend(a: seq<Entry>, b: seq<Entry>, path: FsPath, exclude: seq<FsPath>, depth: nat)
    ensures EntriesTape(a + b, path, exclude, depth)
            == EntriesTape(a, path, exclude, depth) + EntriesTape(b, path, exclude, depth)
    decreases |a|
  {
    hide EntryTape;
    if a == [] {
      assert a + b == b;
    } else {
      assert (a + b)[0] == a[0] && (a + b)[1..] == a[1..] + b;
      EntriesAppend(a[1..], b, path, exclude, depth);
    }
  }

  lemma OneEntry(e: Entry, path: FsPath, exclude: seq<FsPath>, depth: nat)
    ensures EntriesTape([e], path, exclude, depth) == EntryTape(e, path, exclude, depth)
  {
    hide EntryTape;
    assert [e][1..] == [];
    assert EntriesTape([], path, exclude, depth) == [];
  }

  lemma EntriesAround(a: seq<Entry>, e: Entry, b: seq<Entry>, path: FsPath, exclude: seq<FsPath>, depth: nat)
    ensures EntriesTape(a + [e] + b, path, exclude, depth)
            == EntriesTape(a, path, exclude, depth) + EntryTape(e, path, exclude, depth)
                + EntriesTape(b, path, exclude, depth)
  {
    hide EntryTape, EntriesTape;
    EntriesAppend(a + [e], b, path, exclude, depth);
    EntriesAppend(a, [e], path, exclude, depth);
    OneEntry(e, path, exclude, depth);
  }

  /** A directory within the depth limit contributes its listing between what comes before and
      after it; one below the limit contributes nothing that depends on its listing. */
  lemma {:induction false} RelistedTape(d: Directory, route: seq<nat>, path: FsPath, exclude: seq<FsPath>, depth: nat,
                                        listing: seq<Entry>)
    requires Walkable(d, route, path, exclude) && depth <= MAX_DEPTH
    ensures var tape := DirTape(Relisted(d, route, path, exclude, listing), path, exclude, depth);
            if depth + |route| <= MAX_DEPTH then
              tape == TapeBefore(d, route, path, exclude, depth)
                      + EntriesTape(listing, PathTo(d, route, path, exclude), exclude, depth + |route|)
                      + TapeAfter(d, route, path, exclude, depth)
            else tape == DirTape(d, path, exclude, depth)
    decreases |route|
  {
    hide EntriesTape, Excluded;
    if route == [] {
      var whole := EntriesTape(listing, path, exclude, depth);
      assert [] + whole + [] == whole;
    } else {
      var i, e := route[0], d.entries[route[0]];
      var child, rest := path + [e.name], route[1..];
      var inner := Relisted(e.node.dir, rest, child, exclude, listing);
      var e' := e.(node := Dir(inner));
      var a, b := d.entries[..i], d.entries[i + 1..];
      assert d.entries == a + [e] + b && d.entries[i := e'] == a + [e'] + b;
      EntriesAround(a, e, b, path, exclude, depth);
      EntriesAround(a, e', b, path, exclude, depth);
      if depth + 1 <= MAX_DEPTH {
        RelistedTape(e.node.dir, rest, child, exclude, depth + 1, listing);
        Between(EntriesTape(a, path, exclude, depth), [Rec(child, Recorded(e))],
                TapeBefore(e.node.dir, rest, child, exclude, depth + 1),
                EntriesTape(listing, PathTo(d, route, path, exclude), exclude, depth + |route|),
                TapeAfter(e.node.dir, rest, child, exclude, depth + 1), EntriesTape(b, path, exclude, depth));
      }
    }
  }

  lemma Between(a: seq<Event>, r: seq<Event>, p: seq<Event>, x: seq<Event>, q: seq<Event>, b: seq<Event>)
    ensures a + (r + (p + x + q)) + b == (a + r + p) + x + (q + b)
  {
  }

  lemma {:induction false} RelistedSame(d: Directory, route: seq<nat>, path: FsPath, exclude: seq<FsPath>)
    requires Walkable(d, route, path, exclude)
    ensures Relisted(d, route, path, exclude, Listing(d, route, path, exclude)) == d
    decreases |route|
  {
    hide Excluded;
    if route != [] {
      var e := d.entries[route[0]];
      RelistedSame(e.node.dir, route[1..], path + [e.name], exclude);
      assert d.entries[route[0] := e] == d.entries;
    }
  }

  lemma {:induction false} RootsAppend(a: seq<Root>, b: seq<Root>, exclude: seq<FsPath>)
    ensures RootsTape(a + b, exclude) == RootsTape(a, exclude) + RootsTape(b, exclude)
  {
    hide DirTape;
    if b == [] {
      assert a + b == a;
    } else {
      assert (a + b)[..|a + b| - 1] == a + b[..|b| - 1];
      RootsAppend(a, b[..|b| - 1], exclude);
    }
  }

  lemma RootsAround(a: seq<Root>, r: Root, b: seq<Root>, exclude: seq<FsPath>)
    ensures RootsTape(a + [r] + b, exclude)
            == RootsTape(a, exclude) + DirTape(r.dir, r.path, exclude, 0) + RootsTape(b, exclude)
  {
    hide DirTape, RootsTape;
    RootsAppend(a + [r], b, exclude);
    RootsAppend(a, [r], exclude);
    OneRoot(r, exclude);
  }

  lemma OneRoot(r: Root, exclude: seq<FsPath>)
    ensures RootsTape([r], exclude) == DirTape(r.dir, r.path, exclude, 0)
  {
    hide DirTape;
    assert [r][..0] == [] && RootsTape([], exclude) == [];
  }

  /** A place in the file systems walked: entry `i` of the listing at the end of `route` below
      `root`, which is walked after the roots in `earlier` and before those in `later`. */
  datatype Spot = Spot(earlier: seq<Root>, root: Root, later: seq<Root>, route: seq<nat>, i: nat,
                       exclude: seq<FsPath>) {
    predicate Valid() {
      Walkable(root.dir, route, root.path, exclude) && i <= |Here()|
    }

    function Here(): seq<Entry>
      requires Walkable(root.dir, route, root.path, exclude)
    {
      Listing(root.dir, route, root.path, exclude)
    }

    function Path(): FsPath
      requires Walkable(root.dir, route, root.path, exclude)
    {
      PathTo(root.dir, route, root.path, exclude)
    }

    function Roots(): seq<Root> { earlier + [root] + later }

    /** The same file systems with another listing here. */
    function With(listing: seq<Entry>): seq<Root>
      requires Walkable(root.dir, route, root.path, exclude)
    {
      earlier + [root.(dir := Relisted(root.dir, route, root.path, exclude, listing))] + later
    }

    predicate TooDeep() { |route| > 32 }

    /** What the walk has met when it reaches the place. */
    function Before(): seq<Event>
      requires Valid()
    {
      RootsTape(earlier, exclude) + TapeBefore(root.dir, route, root.path, exclude, 0)
      + EntriesTape(Here()[..i], Path(), exclude, |route|)
    }

    /** What it meets once it is past the entries up to `j`. */
    function After(j: nat): seq<Event>
      requires Valid() && j <= |Here()|
    {
      EntriesTape(Here()[j..], Path(), exclude, |route|)
      + TapeAfter(root.dir, route, root.path, exclude, 0) + RootsTape(later, exclude)
    }

    /** The cap was reached before the place. */
    ghost predicate Full()
      requires Valid()
    {
      |ReadTape(EMPTY, Before(), MAX_ENTRIES).entries| >= 50_000
    }
  }

  lemma SpotTape(s: Spot, listing: seq<Entry>)
    requires s.Valid()
    ensures var tape := RootsTape(s.With(listing), s.exclude);
            if s.TooDeep() then tape == RootsTape(s.Roots(), s.exclude)
            else tape == RootsTape(s.earlier, s.exclude) + TapeBefore(s.root.dir, s.route, s.root.path, s.exclude, 0)
                         + EntriesTape(listing, s.Path(), s.exclude, |s.route|)
                         + (TapeAfter(s.root.dir, s.route, s.root.path, s.exclude, 0) + RootsTape(s.later, s.exclude))
  {
    hide EntriesTape, RootsTape, DirTape, TapeBefore, TapeAfter, Walkable, Relisted;
    var r := s.root.(dir := Relisted(s.root.dir, s.route, s.root.path, s.exclude, listing));
    RootsAround(s.earlier, r, s.later, s.exclude);
    RootsAround(s.earlier, s.root, s.later, s.exclude);
    RelistedTape(s.root.dir, s.route, s.root.path, s.exclude, 0, listing);
    Nested(RootsTape(s.earlier, s.exclude), TapeBefore(s.root.dir, s.route, s.root.path, s.exclude, 0),
           EntriesTape(listing, s.Path(), s.exclude, |s.route|),
           TapeAfter(s.root.dir, s.route, s.root.path, s.exclude, 0), RootsTape(s.later, s.exclude));
  }

  lemma Nested(a: seq<Event>, p: seq<Event>, x: seq<Event>, q: seq<Event>, b: seq<Event>)
    ensures a + (p + x + q) + b == a + p + x + (q + b)
  {
  }

  lemma WithHere(s: Spot)
    requires s.Valid()
    ensures s.With(s.Here()) == s.Roots()
  {
    hide Walkable, Listing, Relisted;
    RelistedSame(s.root.dir, s.route, s.root.path, s.exclude);
  }

  /** The tape of the file systems with `e` put in place of the entries from `i` up to `j`. */
  lemma SplicedTape(s: Spot, e: Entry, j: nat)
    requires s.Valid() && s.i <= j <= |s.Here()| && !s.TooDeep()
    ensures RootsTape(s.With(s.Here()[..s.i] + [e] + s.Here()[j..]), s.exclude)
            == s.Before() + EntryTape(e, s.Path(), s.exclude, |s.route|) + s.After(j)
  {
    hide EntriesTape, EntryTape, RootsTape, TapeBefore, TapeAfter, Walkable, Listing, PathTo;
    var a, b := s.Here()[..s.i], s.Here()[j..];
    SpotTape(s, a + [e] + b);
    EntriesAround(a, e, b, s.Path(), s.exclude, |s.route|);
    Spliced(RootsTape(s.earlier, s.exclude) + TapeBefore(s.root.dir, s.route, s.root.path, s.exclude, 0),
            EntriesTape(a, s.Path(), s.exclude, |s.route|), EntryTape(e, s.Path(), s.exclude, |s.route|),
            EntriesTape(b, s.Path(), s.exclude, |s.route|),
            TapeAfter(s.root.dir, s.route, s.root.path, s.exclude, 0), RootsTape(s.later, s.exclude));
  }

  lemma Spliced(p: seq<Event>, a: seq<Event>, x: seq<Event>, b: seq<Event>, q: seq<Event>, l: seq<Event>)
    ensures p + (a + x + b) + (q + l) == (p + a) + x + (b + q + l)
  {
  }

  lemma UnsplicedTape(s: Spot)
    requires s.Valid() && !s.TooDeep()
    ensures RootsTape(s.Roots(), s.exclude) == s.Before() + s.After(s.i)
  {
    hide EntriesTape, RootsTape, TapeBefore, TapeAfter, Walkable, Listing, PathTo;
    var a, b := s.Here()[..s.i], s.Here()[s.i..];
    WithHere(s);
    SpotTape(s, s.Here());
    assert s.Here() == a + b;
    EntriesAppend(a, b, s.Path(), s.exclude, |s.route|);
    Spliced(RootsTape(s.earlier, s.exclude) + TapeBefore(s.root.dir, s.route, s.root.path, s.exclude, 0),
            EntriesTape(a, s.Path(), s.exclude, |s.route|), [],
            EntriesTape(b, s.Path(), s.exclude, |s.route|),
            TapeAfter(s.root.dir, s.route, s.root.path, s.exclude, 0), RootsTape(s.later, s.exclude));
    assert EntriesTape(a, s.Path(), s.exclude, |s.route|) + [] == EntriesTape(a, s.Path(), s.exclude, |s.route|);
    assert s.Before() + [] == s.Before();
  }

  // ----- what a walk misses -----

  lemma {:induction false} KeysGrow(m: Manifest, tape: seq<Event>, cap: nat)
    ensures m.entries.Keys <= ReadTape(m, tape, cap).entries.Keys
  {
    if tape != [] {
      KeysGrow(m, tape[..|tape| - 1], cap);
    }
  }

  lemma {:induction false} KeysAreMet(tape: seq<Event>, cap: nat)
    ensures ReadTape(EMPTY, tape, cap).entries.Keys <= AllRecs(tape).Keys
  {
    if tape != [] {
      KeysAreMet(tape[..|tape| - 1], cap);
    }
  }

  lemma {:induction false} ValueStays(m: Manifest, tape: seq<Event>, cap: nat, p: FsPath)
    requires p in m.entries && p !in AllRecs(tape)
    ensures p in ReadTape(m, tape, cap).entries && ReadTape(m, tape, cap).entries[p] == m.entries[p]
  {
    if tape != [] {
      ValueStays(m, tape[..|tape| - 1], cap, p);
    }
  }

  lemma ReadThree(a: seq<Event>, x: seq<Event>, b: seq<Event>, cap: nat)
    ensures ReadTape(EMPTY, a + x + b, cap) == ReadTape(ReadTape(ReadTape(EMPTY, a, cap), x, cap), b, cap)
  {
    hide ReadTape;
    ReadAppend(EMPTY, a + x, b, cap);
    ReadAppend(EMPTY, a, x, cap);
  }

  lemma AdditionRead(a: seq<Event>, p: FsPath, ge: GuardEntry, sub: seq<Event>, b: seq<Event>, cap: nat)
    requires p !in AllRecs(a + b)
    ensures ReadTape(EMPTY, a + ([Rec(p, ge)] + sub) + b, cap).entries == ReadTape(EMPTY, a + b, cap).entries
            <==> |ReadTape(EMPTY, a, cap).entries| >= cap
  {
    hide ReadTape, AllRecs;
    var m, x := ReadTape(EMPTY, a, cap), [Rec(p, ge)];
    ReadThree(a, x + sub, b, cap);
    ReadAppend(EMPTY, a, b, cap);
    if |m.entries| >= cap {
      FullStays(m, x + sub, cap);
      FullStays(ReadTape(m, x + sub, cap), b, cap);
      FullStays(m, b, cap);
    } else {
      ReadAppend(m, x, sub, cap);
      ReadOne(m, x[0], cap);
      KeysGrow(ReadTape(m, x, cap), sub, cap);
      KeysGrow(ReadTape(m, x + sub, cap), b, cap);
      KeysAreMet(a + b, cap);
    }
  }

  /** The path of the entry is met nowhere in the walk. */
  ghost predicate New(roots: seq<Root>, exclude: seq<FsPath>, p: FsPath) {
    p !in AllRecs(RootsTape(roots, exclude))
  }

  lemma RecordableTape(e: Entry, path: FsPath, exclude: seq<FsPath>, depth: nat) returns (sub: seq<Event>)
    requires Recordable(e, path, exclude)
    ensures forall meta: Option<(u64, Option<u64>)> | meta.Some? ::
              EntryTape(e.(meta := meta), path, exclude, depth)
              == [Rec(path + [e.name], Recorded(e.(meta := meta)))] + sub
    ensures EntryTape(e, path, exclude, depth) == [Rec(path + [e.name], Recorded(e))] + sub
  {
    hide DirTape, Excluded;
    sub := if e.node.Dir? then DirTape(e.node.dir, path + [e.name], exclude, depth + 1) else [];
    assert forall x: Event :: [x] + [] == [x];
  }

  /** An added entry, at a new path the walk does not exclude and with readable metadata, goes
      unnoticed exactly when its directory is below the depth limit or 50,000 entries are already
      recorded when the walk reaches it. */
  lemma AdditionMissedIff(s: Spot, e: Entry)
    requires s.Valid() && Recordable(e, s.Path(), s.exclude) && New(s.Roots(), s.exclude, s.Path() + [e.name])
    ensures ManifestOf(s.With(s.Here()[..s.i] + [e] + s.Here()[s.i..]), s.exclude).entries
            == ManifestOf(s.Roots(), s.exclude).entries
            <==> s.TooDeep() || s.Full()
  {
    hide RootsTape, EntryTape, Walkable, ReadTape, AllRecs, Listing, PathTo, Relisted;
    if s.TooDeep() {
      SpotTape(s, s.Here()[..s.i] + [e] + s.Here()[s.i..]);
    } else {
      SplicedTape(s, e, s.i);
      UnsplicedTape(s);
      var sub := RecordableTape(e, s.Path(), s.exclude, |s.route|);
      AdditionRead(s.Before(), s.Path() + [e.name], Recorded(e), sub, s.After(s.i), MAX_ENTRIES);
    }
  }

  /** The walk meets the path at most once. */
  ghost predicate MetOnce(tape: seq<Event>, p: FsPath) {
    forall i, j | 0 <= i < j < |tape| :: tape[i].Rec? && tape[j].Rec? ==> tape[i].path != p || tape[j].path != p
  }

  lemma OnlyHere(a: seq<Event>, x: Event, b: seq<Event>, p: FsPath)
    requires x.Rec? && x.path == p && MetOnce(a + [x] + b, p)
    ensures p !in AllRecs(a) && p !in AllRecs(b)
  {
    hide AllRecs;
    var tape := a + [x] + b;
    assert tape[|a|] == x;
    forall i | 0 <= i < |a| ensures !(a[i].Rec? && a[i].path == p) {
      assert tape[i] == a[i];
    }
    forall i | 0 <= i < |b| ensures !(b[i].Rec? && b[i].path == p) {
      assert tape[|a| + 1 + i] == b[i];
    }
    RecsAre(a, p);
    RecsAre(b, p);
  }

  lemma ChangeRead(a: seq<Event>, p: FsPath, ge: GuardEntry, ge': GuardEntry, b: seq<Event>, cap: nat)
    requires p !in AllRecs(a) && p !in AllRecs(b)
    ensures ReadTape(EMPTY, a + [Rec(p, ge')] + b, cap).entries == ReadTape(EMPTY, a + [Rec(p, ge)] + b, cap).entries
            <==> ge' == ge || |ReadTape(EMPTY, a, cap).entries| >= cap
  {
    hide ReadTape, AllRecs;
    var m := ReadTape(EMPTY, a, cap);
    ReadThree(a, [Rec(p, ge)], b, cap);
    ReadThree(a, [Rec(p, ge')], b, cap);
    ReadOne(m, Rec(p, ge), cap);
    ReadOne(m, Rec(p, ge'), cap);
    if |m.entries| >= cap {
      FullStays(ReadTape(m, [Rec(p, ge)], cap), b, cap);
      FullStays(ReadTape(m, [Rec(p, ge')], cap), b, cap);
    } else {
      ValueStays(ReadTape(m, [Rec(p, ge)], cap), b, cap, p);
      ValueStays(ReadTape(m, [Rec(p, ge')], cap), b, cap, p);
    }
  }

  lemma PresentRead(a: seq<Event>, p: FsPath, ge: GuardEntry, b: seq<Event>, cap: nat)
    requires p !in AllRecs(a) && p !in AllRecs(b)
    ensures var m := ReadTape(EMPTY, a + [Rec(p, ge)] + b, cap).entries;
            && (p in m <==> |ReadTape(EMPTY, a, cap).entries| < cap)
            && (p in m ==> m[p] == ge)
  {
    hide ReadTape, AllRecs;
    var m := ReadTape(EMPTY, a, cap);
    ReadThree(a, [Rec(p, ge)], b, cap);
    ReadOne(m, Rec(p, ge), cap);
    KeysAreMet(a, cap);
    if |m.entries| >= cap {
      FullStays(ReadTape(m, [Rec(p, ge)], cap), b, cap);
    } else {
      ValueStays(ReadTape(m, [Rec(p, ge)], cap), b, cap, p);
    }
  }

  /** An entry within the depth limit that the walk meets once is recorded, as it is, exactly when
      fewer than 50,000 entries are recorded when the walk reaches it, truncated or not. */
  lemma RecordedIff(s: Spot)
    requires s.Valid() && s.i < |s.Here()| && Recordable(s.Here()[s.i], s.Path(), s.exclude) && !s.TooDeep()
    requires MetOnce(RootsTape(s.Roots(), s.exclude), s.Path() + [s.Here()[s.i].name])
    ensures var e, m := s.Here()[s.i], ManifestOf(s.Roots(), s.exclude).entries;
            && (s.Path() + [e.name] in m <==> !s.Full())
            && (s.Path() + [e.name] in m ==> m[s.Path() + [e.name]] == Recorded(e))
  {
    hide RootsTape, EntryTape, Walkable, ReadTape, AllRecs, Listing, PathTo, Relisted, MetOnce;
    var e, rest := s.Here()[s.i], s.Here()[s.i + 1..];
    assert s.Here() == s.Here()[..s.i] + [e] + rest;
    WithHere(s);
    SplicedTape(s, e, s.i + 1);
    var sub := RecordableTape(e, s.Path(), s.exclude, |s.route|);
    var p := s.Path() + [e.name];
    Assoc(s.Before(), [Rec(p, Recorded(e))], sub);
    Assoc(s.Before() + [Rec(p, Recorded(e))], sub, s.After(s.i + 1));
    OnlyHere(s.Before(), Rec(p, Recorded(e)), sub + s.After(s.i + 1), p);
    PresentRead(s.Before(), p, Recorded(e), sub + s.After(s.i + 1), MAX_ENTRIES);
  }

  /** A changed size or time of an entry the walk meets once goes unnoticed exactly when its
      directory is below the depth limit or 50,000 entries are already recorded when the walk
      reaches it. */
  lemma ChangeMissedIff(s: Spot, meta: (u64, Option<u64>))
    requires s.Valid() && s.i < |s.Here()| && Recordable(s.Here()[s.i], s.Path(), s.exclude)
    requires MetOnce(RootsTape(s.Roots(), s.exclude), s.Path() + [s.Here()[s.i].name])
    ensures ManifestOf(s.With(s.Here()[s.i := s.Here()[s.i].(meta := Some(meta))]), s.exclude).entries
            == ManifestOf(s.Roots(), s.exclude).entries
            <==> s.Here()[s.i].meta == Some(meta) || s.TooDeep() || s.Full()
  {
    hide RootsTape, EntryTape, Walkable, ReadTape, AllRecs, Listing, PathTo, Relisted, MetOnce;
    var e := s.Here()[s.i];
    var e' := e.(meta := Some(meta));
    var rest := s.Here()[s.i + 1..];
    assert s.Here() == s.Here()[..s.i] + [e] + rest;
    assert s.Here()[s.i := e'] == s.Here()[..s.i] + [e'] + rest;
    WithHere(s);
    if s.TooDeep() {
      SpotTape(s, s.Here()[s.i := e']);
    } else {
      SplicedTape(s, e, s.i + 1);
      SplicedTape(s, e', s.i + 1);
      var sub := RecordableTape(e, s.Path(), s.exclude, |s.route|);
      var p := s.Path() + [e.name];
      Assoc(s.Before(), [Rec(p, Recorded(e))], sub);
      Assoc(s.Before(), [Rec(p, Recorded(e'))], sub);
      Assoc(s.Before() + [Rec(p, Recorded(e))], sub, s.After(s.i + 1));
      Assoc(s.Before() + [Rec(p, Recorded(e'))], sub, s.After(s.i + 1));
      OnlyHere(s.Before(), Rec(p, Recorded(e)), sub + s.After(s.i + 1), p);
      ChangeRead(s.Before(), p, Recorded(e), Recorded(e'), sub + s.After(s.i + 1), MAX_ENTRIES);
    }
  }

  // ----- the two ways to miss an addition, on file systems that can exist -----

  function Digit(n: nat): byte {
    48 + n % 10
  }

  /** The files "00000", "00001", … in turn. */
  function Numbered(n: nat): (e: Entry)
    ensures e.Entry? && |e.name| == 5
  {
    var name := [Digit(n / 10_000), Digit(n / 1_000), Digit(n / 100), Digit(n / 10), Digit(n)];
    Entry(name, Some((0, None)), File)
  }

  function Crowd(n: nat): seq<Entry> {
    if n == 0 then [] else Crowd(n - 1) + [Numbered(n - 1)]
  }

  function Value(name: Name): int
    requires |name| == 5
  {
    var d := (b: byte) => b as int - 48;
    d(name[0]) * 10_000 + d(name[1]) * 1_000 + d(name[2]) * 100 + d(name[3]) * 10 + d(name[4])
  }

  lemma NumberOf(n: nat)
    requires n < 100_000
    ensures |Numbered(n).name| == 5 && Value(Numbered(n).name) == n
  {
    assert n / 10_000 < 10;
    assert n / 1_000 == n / 10_000 * 10 + n / 1_000 % 10;
    assert n / 100 == n / 1_000 * 10 + n / 100 % 10;
    assert n / 10 == n / 100 * 10 + n / 10 % 10;
    assert n == n / 10 * 10 + n % 10;
  }

  ghost predicate NumberedBelow(p: FsPath, n: nat) {
    |p| == 1 && |p[0]| == 5 && Value(p[0]) < n
  }

  ghost predicate Crowded(recs: Entries, n: nat) {
    |recs| == n && forall p | p in recs :: NumberedBelow(p, n)
  }

  lemma CrowdedSnoc(recs: Entries, n: nat, name: Name, ge: GuardEntry)
    requires Crowded(recs, n) && |name| == 5 && Value(name) == n
    ensures Crowded(recs[[name] := ge], n + 1)
  {
    hide Value;
    var p: FsPath := [name];
    assert p !in recs;
    assert recs[p := ge].Keys == recs.Keys + {p};
    assert |recs[p := ge]| == |recs[p := ge].Keys| && |recs| == |recs.Keys|;
  }

  lemma NumberedTape(n: nat)
    ensures EntryTape(Numbered(n), [], [], 0) == [Rec([Numbered(n).name], GuardEntry(false, 0, None))]
  {
    assert [] + [Numbered(n).name] == [Numbered(n).name];
  }

  lemma RecsSnoc(tape: seq<Event>, e: Event)
    requires e.Rec?
    ensures AllRecs(tape + [e]) == AllRecs(tape)[e.path := e.entry]
  {
    assert (tape + [e])[..|tape|] == tape;
  }

  lemma CrowdGrows(n: nat, cap: nat)
    requires 0 < n
    ensures var tape := EntriesTape(Crowd(n - 1), [], [], 0);
            var e := Rec([Numbered(n - 1).name], GuardEntry(false, 0, None));
            && EntriesTape(Crowd(n), [], [], 0) == tape + [e]
            && ReadTape(EMPTY, tape + [e], cap) == Read(ReadTape(EMPTY, tape, cap), e, cap)
  {
    hide EntriesTape, ReadTape, Numbered, EntryTape;
    EntriesAppend(Crowd(n - 1), [Numbered(n - 1)], [], [], 0);
    OneEntry(Numbered(n - 1), [], [], 0);
    NumberedTape(n - 1);
    var tape, e := EntriesTape(Crowd(n - 1), [], [], 0), Rec([Numbered(n - 1).name], GuardEntry(false, 0, None));
    ReadAppend(EMPTY, tape, [e], cap);
    ReadOne(ReadTape(EMPTY, tape, cap), e, cap);
  }

  lemma {:induction false} CrowdRecords(n: nat, cap: nat)
    requires n <= cap && n <= 100_000
    ensures var tape := EntriesTape(Crowd(n), [], [], 0);
            Crowded(ReadTape(EMPTY, tape, cap).entries, n) && Crowded(AllRecs(tape), n)
  {
    hide EntriesTape, ReadTape, AllRecs;
    if n == 0 {
      NothingListed(cap);
    } else {
      hide Numbered, Crowded, Value, Crowd;
      var tape, e := EntriesTape(Crowd(n - 1), [], [], 0), Rec([Numbered(n - 1).name], GuardEntry(false, 0, None));
      CrowdRecords(n - 1, cap);
      CrowdGrows(n, cap);
      RecsSnoc(tape, e);
      NumberOf(n - 1);
      CrowdSize(ReadTape(EMPTY, tape, cap).entries, n - 1);
      CrowdedSnoc(ReadTape(EMPTY, tape, cap).entries, n - 1, Numbered(n - 1).name, e.entry);
      CrowdedSnoc(AllRecs(tape), n - 1, Numbered(n - 1).name, e.entry);
    }
  }

  lemma CrowdSize(recs: Entries, n: nat)
    requires Crowded(recs, n)
    ensures |recs| == n
  {
  }

  lemma NothingListed(cap: nat)
    ensures EntriesTape([], [], [], 0) == [] && ReadTape(EMPTY, [], cap) == EMPTY && AllRecs([]) == map[]
  {
  }

  /** The end of the root directory's listing. */
  function AtEnd(entries: seq<Entry>): Spot {
    Spot([], Root([], Readable(entries)), [], [], |entries|, [])
  }

  lemma AtEndTapes(entries: seq<Entry>)
    ensures var s := AtEnd(entries);
            && s.Valid() && s.Here() == entries && s.Path() == []
            && s.Before() == EntriesTape(entries, [], [], 0)
            && RootsTape(s.Roots(), []) == EntriesTape(entries, [], [], 0)
  {
    hide EntriesTape;
    var s := AtEnd(entries);
    assert entries[..|entries|] == entries;
    var tape := EntriesTape(entries, [], [], 0);
    assert [] + [] + tape == tape;
    OneRoot(s.root, []);
    assert s.Roots() == [s.root];
  }

  /** A directory of 50,000 files with distinct five-digit names, and the same with one more, have
      the same manifest. */
  lemma TruncationHidesAddition()
    ensures var s, e := AtEnd(Crowd(MAX_ENTRIES)), Numbered(MAX_ENTRIES);
            && s.Valid() && New(s.Roots(), [], [e.name])
            && ManifestOf(s.With(s.Here() + [e]), []).entries == ManifestOf(s.Roots(), []).entries
  {
    hide EntriesTape, ReadTape, RootsTape, AllRecs, EntryTape, Crowd, Numbered, Value;
    var s, e := AtEnd(Crowd(MAX_ENTRIES)), Numbered(MAX_ENTRIES);
    AtEndTapes(Crowd(MAX_ENTRIES));
    CrowdRecords(MAX_ENTRIES, MAX_ENTRIES);
    NumberOf(MAX_ENTRIES);
    assert !NumberedBelow([e.name], MAX_ENTRIES);
    assert s.Path() + [e.name] == [e.name];
    NumberedRecordable(MAX_ENTRIES);
    AdditionMissedIff(s, e);
    assert s.Here()[..s.i] + [e] + s.Here()[s.i..] == s.Here() + [e];
  }

  lemma OnceAtEnd(tape: seq<Event>, x: Event, p: FsPath)
    requires p !in AllRecs(tape)
    ensures MetOnce(tape + [x], p)
  {
    hide AllRecs;
    RecsAre(tape, p);
    forall i | 0 <= i < |tape| ensures !(tape[i].Rec? && tape[i].path == p) {
      assert tape[i] in tape;
    }
  }

  lemma LastInCrowd(n: nat)
    requires n < 100_000
    ensures var s := AtEnd(Crowd(n + 1)).(i := n);
            && s.Valid() && s.Here() == Crowd(n) + [Numbered(n)] && s.Path() == []
            && s.Before() == EntriesTape(Crowd(n), [], [], 0)
            && RootsTape(s.Roots(), []) == s.Before() + [Rec([Numbered(n).name], GuardEntry(false, 0, None))]
            && MetOnce(RootsTape(s.Roots(), []), [Numbered(n).name])
  {
    hide EntriesTape, AllRecs, MetOnce, Numbered, ReadTape;
    var s := AtEnd(Crowd(n + 1)).(i := n);
    var tape := EntriesTape(Crowd(n), [], [], 0);
    AtEndTapes(Crowd(n + 1));
    CrowdLen(n);
    assert s.Here()[..n] == Crowd(n);
    assert [] + [] + tape == tape;
    CrowdGrows(n + 1, 0);
    CrowdRecords(n, n);
    NumberOf(n);
    assert !NumberedBelow([Numbered(n).name], n);
    OnceAtEnd(tape, Rec([Numbered(n).name], GuardEntry(false, 0, None)), [Numbered(n).name]);
  }

  lemma {:induction false} CrowdLen(n: nat)
    ensures |Crowd(n)| == n
  {
    if n > 0 {
      CrowdLen(n - 1);
    }
  }

  /** Of 50,001 files in one directory, the last can change its size from 0 to anything: the walk
      was truncated, and the manifest is the same. */
  lemma TruncationHidesChange(size: u64)
    ensures var n := MAX_ENTRIES;
            var s, resized := AtEnd(Crowd(n + 1)).(i := n), Numbered(n).(meta := Some((size, None)));
            && s.Valid() && n < |s.Here()|
            && ManifestOf(s.Roots(), []).truncated
            && ManifestOf(s.With(s.Here()[n := resized]), []).entries == ManifestOf(s.Roots(), []).entries
  {
    hide EntriesTape, ReadTape, RootsTape, AllRecs, EntryTape, Crowd, Numbered, MetOnce;
    var n := MAX_ENTRIES;
    var s, e := AtEnd(Crowd(n + 1)).(i := n), Numbered(n);
    LastInCrowd(n);
    CrowdLen(n);
    CrowdRecords(n, n);
    CrowdSize(ReadTape(EMPTY, s.Before(), n).entries, n);
    NumberedRecordable(n);
    assert s.Here()[n] == e && s.Path() + [e.name] == [e.name];
    var last := [Rec([e.name], GuardEntry(false, 0, None))];
    ReadAppend(EMPTY, s.Before(), last, n);
    FullStays(ReadTape(EMPTY, s.Before(), n), last, n);
    ChangeMissedIff(s, (size, None));
  }

  lemma NumberedRecordable(n: nat)
    ensures Recordable(Numbered(n), [], [])
  {
  }

  const DIR_NAME: Name := [100] // "d"

  /** A directory holding one directory, and so on, `n` deep, with `bottom` in the last. */
  function Chain(n: nat, bottom: seq<Entry>): Directory {
    Readable(if n == 0 then bottom else [Entry(DIR_NAME, Some((0, None)), Dir(Chain(n - 1, bottom)))])
  }

  function Down(n: nat): seq<nat> {
    seq(n, _ => 0)
  }

  lemma {:induction false} ChainWalkable(n: nat, bottom: seq<Entry>, path: FsPath)
    ensures var d := Chain(n, bottom);
            Walkable(d, Down(n), path, []) && Listing(d, Down(n), path, []) == bottom
  {
    if n > 0 {
      assert Down(n)[1..] == Down(n - 1);
      ChainWalkable(n - 1, bottom, path + [DIR_NAME]);
    }
  }

  lemma {:induction false} ChainTape(n: nat, bottom: seq<Entry>, path: FsPath, depth: nat)
    requires depth + n > MAX_DEPTH
    ensures var tape := DirTape(Chain(n, bottom), path, [], depth);
            && |tape| <= n + 1
            && TooDeep in tape
            && forall x | x in tape && x.Rec? :: x.path != [] && x.path[|x.path| - 1] == DIR_NAME
  {
    if depth <= MAX_DEPTH {
      var inner := Chain(n - 1, bottom);
      var e := Entry(DIR_NAME, Some((0, None)), Dir(inner));
      ChainTape(n - 1, bottom, path + [DIR_NAME], depth + 1);
      OneEntry(e, path, [], depth);
      assert EntryTape(e, path, [], depth)
             == [Rec(path + [DIR_NAME], Recorded(e))] + DirTape(inner, path + [DIR_NAME], [], depth + 1);
    }
  }

  lemma {:induction false} FewRecorded(tape: seq<Event>, cap: nat)
    ensures |ReadTape(EMPTY, tape, cap).entries| <= |tape|
  {
    if tape != [] {
      FewRecorded(tape[..|tape| - 1], cap);
      var m, e := ReadTape(EMPTY, tape[..|tape| - 1], cap), tape[|tape| - 1];
      if e.Rec? {
        assert m.entries[e.path := e.entry].Keys == m.entries.Keys + {e.path};
        assert |m.entries[e.path := e.entry]| == |m.entries[e.path := e.entry].Keys| && |m.entries| == |m.entries.Keys|;
      }
    }
  }

  // Two below the limit: the directory that changes is then not itself an entry of a listing
  // that is read, so not even its own times are recorded.
  const DEEP := MAX_DEPTH + 2

  function AtBottom(bottom: seq<Entry>): Spot {
    Spot([], Root([], Chain(DEEP, bottom)), [], Down(DEEP), 0, [])
  }

  lemma BottomUnmet(bottom: seq<Entry>, name: Name)
    requires name != DIR_NAME
    ensures var s := AtBottom(bottom);
            && s.Valid() && s.Here() == bottom && s.TooDeep()
            && New(s.Roots(), [], s.Path() + [name])
            && MetOnce(RootsTape(s.Roots(), []), s.Path() + [name])
            && |ManifestOf(s.Roots(), []).entries| <= DEEP + 1
            && ManifestOf(s.Roots(), []).truncated
  {
    hide ReadTape, DirTape, AllRecs, Chain, EntriesTape, Walkable, Listing, PathTo;
    var s := AtBottom(bottom);
    ChainWalkable(DEEP, bottom, []);
    ChainTape(DEEP, bottom, [], 0);
    OneRoot(s.root, []);
    assert s.Roots() == [s.root];
    var tape, p := DirTape(s.root.dir, [], [], 0), s.Path() + [name];
    FewRecorded(tape, MAX_ENTRIES);
    ReadIs(tape, MAX_ENTRIES);
    RecsAre(tape, p);
    assert p[|p| - 1] == name;
  }

  /** A chain of 34 directories, and the same with a file at the bottom, have the same manifest of
      at most 35 entries. */
  lemma DepthHidesAddition()
    ensures var s, e := AtBottom([]), Numbered(0);
            && s.Valid() && New(s.Roots(), [], s.Path() + [e.name])
            && ManifestOf(s.With([e]), []).entries == ManifestOf(s.Roots(), []).entries
            && |ManifestOf(s.Roots(), []).entries| <= DEEP + 1
  {
    hide ReadTape, RootsTape, AllRecs, AtBottom, Walkable, Listing, PathTo, Relisted;
    var s, e := AtBottom([]), Numbered(0);
    BottomUnmet([], e.name);
    BottomHere([]);
    NoneExcluded(s.Path() + [e.name]);
    assert s.Here()[..s.i] + [e] + s.Here()[s.i..] == [e];
    AdditionMissedIff(s, e);
  }

  lemma BottomHere(bottom: seq<Entry>)
    ensures var s := AtBottom(bottom); s.i == 0 && s.exclude == []
  {
  }

  /** The file at the bottom of the chain can change its size from 0 to anything: the walk was
      truncated, and the manifest is the same. */
  lemma DepthHidesChange(size: u64)
    ensures var e := Numbered(0);
            var s, resized := AtBottom([e]), e.(meta := Some((size, None)));
            && s.Valid() && s.Here() == [e]
            && ManifestOf(s.Roots(), []).truncated
            && ManifestOf(s.With([resized]), []).entries == ManifestOf(s.Roots(), []).entries
  {
    hide ReadTape, RootsTape, AllRecs, AtBottom, Walkable, Listing, PathTo, Relisted, MetOnce;
    var e := Numbered(0);
    var s := AtBottom([e]);
    BottomUnmet([e], e.name);
    BottomHere([e]);
    NoneExcluded(s.Path() + [e.name]);
    assert s.Here()[0] == e;
    assert s.Here()[0 := e.(meta := Some((size, None)))] == [e.(meta := Some((size, None)))];
    ChangeMissedIff(s, (size, None));
  }

  lemma NoneExcluded(p: FsPath)
    ensures !Excluded(p, [])
  {
  }
}
