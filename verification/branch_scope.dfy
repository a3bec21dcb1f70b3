/** The push checkpoint: a git push is parsed into refspecs, and every destination branch must
    lie under the capability's prefix. */
module BranchScope {
  import opened Foundation
  import opened Text

  datatype PushRequest = PushRequest(repo: string, host: string, force: bool, refspecs: seq<string>)

  datatype WriteCap = WriteCap(repo: string, prefix: string)

  datatype PushDenied =
    | Host(host: string)
    | RepoMismatch(requested: string, allowed: string)
    | ForcePush
    | ProtectedBranch(branch: string)
    | BranchOutsidePrefix(branch: string)

  const ALLOWED_HOSTS := {"github.com", "api.github.com"}

  // ----- segments -----

  function Prepend(c: char, segs: seq<string>): (r: seq<string>)
    requires segs != []
    ensures r != []
  {
    if c == '/' then [""] + segs else [[c] + segs[0]] + segs[1..]
  }

  /** `str::split('/')` */
  function Split(s: string): (segs: seq<string>)
    ensures segs != []
  {
    if s == [] then [""] else Prepend(s[0], Split(s[1..]))
  }

  lemma JoinPrepend(c: char, segs: seq<string>)
    requires segs != []
    ensures Join(Prepend(c, segs)) == [c] + Join(segs)
  {
    var r := Prepend(c, segs);
    if c == '/' {
      assert r[1..] == segs;
    } else {
      assert r[1..] == segs[1..];
    }
  }

  lemma {:induction false} JoinSplit(s: string)
    ensures Join(Split(s)) == s
  {
    hide Prepend;
    if s != [] {
      JoinSplit(s[1..]);
      JoinPrepend(s[0], Split(s[1..]));
    }
  }

  lemma {:induction false} JoinAppend(a: seq<string>, b: seq<string>)
    requires a != [] && b != []
    ensures Join(a + b) == Join(a) + "/" + Join(b)
  {
    if |a| == 1 {
      assert (a + b)[1..] == b;
    } else {
      assert (a + b)[1..] == a[1..] + b;
      JoinAppend(a[1..], b);
    }
  }

  lemma PrependConcat(c: char, x: seq<string>, y: seq<string>)
    requires x != []
    ensures Prepend(c, x + y) == Prepend(c, x) + y
  {
    if c != '/' {
      assert (x + y)[1..] == x[1..] + y;
    }
  }

  lemma {:induction false} SplitConcat(a: string, b: string)
    ensures Split(a + "/" + b) == Split(a) + Split(b)
  {
    var whole := a + "/" + b;
    if a == [] {
      assert whole[0] == '/' && whole[1..] == b;
    } else {
      hide Prepend;
      assert whole[0] == a[0] && whole[1..] == a[1..] + "/" + b;
      SplitConcat(a[1..], b);
      PrependConcat(a[0], Split(a[1..]), Split(b));
    }
  }

  lemma SegmentsIfPrefix(s: string, p: string)
    requires p + "/" <= s
    ensures Split(p) <= Split(s)
  {
    hide Split;
    var rest := s[|p| + 1..];
    assert s == p + "/" + rest;
    SplitConcat(p, rest);
  }

  lemma PrefixIfSegments(s: string, p: string)
    requires Split(p) <= Split(s)
    ensures s == p || p + "/" <= s
  {
    hide Split, Join;
    var rest := Split(s)[|Split(p)|..];
    assert Split(s) == Split(p) + rest;
    JoinSplit(s);
    JoinSplit(p);
    if rest == [] {
      assert Split(s) == Split(p);
    } else {
      JoinAppend(Split(p), rest);
    }
  }

  /** A string starts with `p`, ending there or at a slash, exactly when the segments of `p`
      are the first segments of the string. */
  lemma SegmentPrefix(s: string, p: string)
    ensures s == p || p + "/" <= s <==> Split(p) <= Split(s)
  {
    hide Split;
    if p + "/" <= s {
      SegmentsIfPrefix(s, p);
    }
    if Split(p) <= Split(s) {
      PrefixIfSegments(s, p);
    }
  }

  // ----- confinement -----

  function TrimSlashes(s: string): string {
    if s != [] && s[|s| - 1] == '/' then TrimSlashes(s[..|s| - 1]) else s
  }

  predicate DotSegment(branch: string) {
    exists seg | seg in Split(branch) :: seg == "." || seg == ".."
  }

  /** `seg` stands in `s` between slashes or the ends. */
  ghost predicate Between(s: string, x: string, seg: string, y: string) {
    s == x + seg + y && (x == "" || x[|x| - 1] == '/') && (y == "" || y[0] == '/')
  }

  lemma SplitPlain(seg: string)
    requires seg == "." || seg == ".."
    ensures Split(seg) == [seg]
  {
    assert "."[1..] == "" && ".."[1..] == ".";
    assert ['.'] + "" == "." && ['.'] + "." == "..";
    assert [""][1..] == [] && ["."][1..] == [];
    assert Split("") == [""];
    assert Split(".") == Prepend('.', Split("."[1..])) == ["."] + [];
    assert Split("..") == Prepend('.', Split(".."[1..])) == [".."] + [];
  }

  lemma SplitBetween(s: string, x: string, seg: string, y: string)
    requires Between(s, x, seg, y) && Split(seg) == [seg]
    ensures seg in Split(s)
  {
    hide Split;
    var rest := seg + y;
    if y != "" {
      assert y == "/" + y[1..];
      assert rest == seg + "/" + y[1..];
      SplitConcat(seg, y[1..]);
    } else {
      assert rest == seg;
    }
    assert seg in Split(rest);
    if x != "" {
      var front := x[..|x| - 1];
      assert x == front + "/";
      assert s == front + "/" + rest;
      SplitConcat(front, rest);
    } else {
      assert s == rest;
    }
  }

  lemma BetweenSplit(s: string, i: nat) returns (x: string, y: string)
    requires i < |Split(s)|
    ensures Between(s, x, Split(s)[i], y)
  {
    hide Split, Join;
    var segs := Split(s);
    var pre, seg, post := segs[..i], segs[i], segs[i + 1..];
    JoinSplit(s);
    assert segs == pre + ([seg] + post);
    JoinOne(seg);
    y := if post == [] then "" else "/" + Join(post);
    if post == [] {
      assert [seg] + post == [seg];
    } else {
      JoinAppend([seg], post);
    }
    assert Join([seg] + post) == seg + y;
    x := if pre == [] then "" else Join(pre) + "/";
    if pre == [] {
      assert pre + ([seg] + post) == [seg] + post;
    } else {
      JoinAppend(pre, [seg] + post);
    }
    assert s == x + seg + y;
  }

  lemma JoinOne(seg: string)
    ensures Join([seg]) == seg
  {
  }

  /** A branch has a dot segment exactly when a dot or two dots stand between slashes or its ends. */
  lemma DotSegmentIs(branch: string)
    ensures DotSegment(branch) <==>
              exists x, seg, y :: (seg == "." || seg == "..") && Between(branch, x, seg, y)
  {
    hide Split, Between;
    if DotSegment(branch) {
      var seg :| seg in Split(branch) && (seg == "." || seg == "..");
      var i :| 0 <= i < |Split(branch)| && Split(branch)[i] == seg;
      var x, y := BetweenSplit(branch, i);
      assert Between(branch, x, seg, y);
    }
    forall x, seg, y | (seg == "." || seg == "..") && Between(branch, x, seg, y) ensures DotSegment(branch) {
      SplitPlain(seg);
      SplitBetween(branch, x, seg, y);
    }
  }

  /** Trailing slashes are taken off a prefix, all of them, and nothing else. */
  lemma {:induction false} TrimSlashesIs(s: string)
    ensures var t := TrimSlashes(s);
            && t <= s && (t == "" || t[|t| - 1] != '/')
            && forall i | |t| <= i < |s| :: s[i] == '/'
  {
    if s != [] && s[|s| - 1] == '/' {
      TrimSlashesIs(s[..|s| - 1]);
    }
  }

  predicate BranchUnderPrefix(branch: string, prefix: string) {
    var p := TrimSlashes(prefix);
    !DotSegment(branch) && p != "" && (branch == p || p + "/" <= branch)
  }

  /** Confinement on strings is confinement on segment lists. */
  lemma ConfinedBySegments(branch: string, prefix: string)
    ensures BranchUnderPrefix(branch, prefix)
            <==> !DotSegment(branch) && TrimSlashes(prefix) != "" && Split(TrimSlashes(prefix)) <= Split(branch)
  {
    SegmentPrefix(branch, TrimSlashes(prefix));
  }

  // ----- validating a push -----

  /** The words of `s` that start in it, counting a word already begun when `inWord`. */
  function WordCount(s: string, inWord: bool): nat {
    if s == [] then 0
    else if IsWhitespace(s[0]) then WordCount(s[1..], false)
    else (if inWord then 0 else 1) + WordCount(s[1..], true)
  }

  function AfterLastColon(s: string): string {
    if s == [] || s[|s| - 1] == ':' then [] else AfterLastColon(s[..|s| - 1]) + [s[|s| - 1]]
  }

  /** A trimmed text has at most one word exactly when it holds no whitespace. */
  lemma {:induction false} OneWord(s: string, inWord: bool)
    requires s == [] || !IsWhitespace(s[|s| - 1])
    ensures inWord ==> (WordCount(s, true) == 0 <==> forall i | 0 <= i < |s| :: !IsWhitespace(s[i]))
    ensures !inWord && s != [] ==> WordCount(s, false) >= 1
  {
    hide IsWhitespace;
    if s != [] {
      OneWord(s[1..], true);
      OneWord(s[1..], false);
      assert forall i | 0 <= i < |s| - 1 :: s[1..][i] == s[i + 1];
      assert (forall i | 0 <= i < |s| :: !IsWhitespace(s[i]))
             <==> !IsWhitespace(s[0]) && forall i | 0 <= i < |s[1..]| :: !IsWhitespace(s[1..][i]) by {
        forall i | 0 < i < |s| ensures s[i] == s[1..][i - 1] {
        }
      }
    }
  }

  predicate Blankless(s: string) {
    forall i | 0 <= i < |s| :: !IsWhitespace(s[i])
  }

  lemma {:induction false} TrimmedEnd(s: string)
    ensures TrimEnd(s) == [] || !IsWhitespace(TrimEnd(s)[|TrimEnd(s)| - 1])
  {
    if s != [] && IsWhitespace(s[|s| - 1]) {
      TrimmedEnd(s[..|s| - 1]);
    }
  }

  lemma {:induction false} TrimmedStart(s: string)
    ensures TrimStart(s) == [] || !IsWhitespace(TrimStart(s)[0])
  {
    if s != [] && IsWhitespace(s[0]) {
      TrimmedStart(s[1..]);
    }
  }

  lemma SingleWord(spec: string)
    ensures WordCount(Trim(spec), false) <= 1 <==> Blankless(Trim(spec))
  {
    hide IsWhitespace;
    var s := Trim(spec);
    TrimmedStart(spec);
    TrimmedEnd(TrimStart(spec));
    if TrimStart(spec) != [] {
      TrimEndKeepsHead(TrimStart(spec));
    }
    if s != [] {
      OneWord(s[1..], true);
      assert WordCount(s, false) == 1 + WordCount(s[1..], true);
      assert Blankless(s) <==> Blankless(s[1..]) by {
        forall i | 0 < i < |s| ensures s[i] == s[1..][i - 1] {
        }
      }
    }
  }

  const HEADS := "refs/heads/"

  function Destination(spec: string): string {
    var dst := AfterLastColon(spec);
    if HEADS <= dst then dst[|HEADS|..] else dst
  }

  lemma {:induction false} AfterColon(src: string, t: string)
    requires ':' !in t
    ensures AfterLastColon(t) == t && AfterLastColon(src + ":" + t) == t
  {
    var s := src + ":" + t;
    if t == [] {
      assert s[|s| - 1] == ':';
    } else {
      var front, c := t[..|t| - 1], t[|t| - 1];
      assert c in t && s[|s| - 1] == c && s[..|s| - 1] == src + ":" + front;
      AfterColon(src, front);
      assert t == front + [c];
    }
  }

  /** The destination of a bare branch, of a branch given in full, and of either after a source, is
      the branch. */
  lemma DestinationIs(src: string, branch: string)
    requires ':' !in branch && !("refs/heads/" <= branch)
    ensures Destination(branch) == branch
    ensures Destination("refs/heads/" + branch) == branch
    ensures Destination(src + ":" + branch) == branch
    ensures Destination(src + ":" + ("refs/heads/" + branch)) == branch
  {
    var full := "refs/heads/" + branch;
    assert ':' !in "refs/heads/";
    assert ':' !in full;
    AfterColon(src, branch);
    AfterColon(src, full);
    assert "refs/heads/" <= full && full[|HEADS|..] == branch;
  }

  predicate Protected(branch: string) {
    branch == "main" || branch == "master" || branch == "HEAD"
  }

  /** Why one refspec is refused, if it is. */
  function Refusal(spec: string, prefix: string): Option<PushDenied> {
    var s := Trim(spec);
    if WordCount(s, false) > 1 then Some(ForcePush)
    else if "+" <= s then Some(ForcePush)
    else if Protected(Destination(s)) then Some(ProtectedBranch(Destination(s)))
    else if !BranchUnderPrefix(Destination(s), prefix) then Some(BranchOutsidePrefix(Destination(s)))
    else None
  }

  function FirstRefusal(refspecs: seq<string>, prefix: string): Option<PushDenied> {
    if refspecs == [] then None else
    var front := FirstRefusal(refspecs[..|refspecs| - 1], prefix);
    if front.Some? then front else Refusal(refspecs[|refspecs| - 1], prefix)
  }

  function Validated(cap: WriteCap, req: PushRequest): Result<(), PushDenied> {
    if req.host !in ALLOWED_HOSTS then Err(Host(req.host))
    else if req.repo != cap.repo then Err(RepoMismatch(req.repo, cap.repo))
    else if req.force then Err(ForcePush)
    else match FirstRefusal(req.refspecs, cap.prefix)
      case Some(why) => Err(why)
      case None => Ok(())
  }

  method ValidatePush(cap: WriteCap, req: PushRequest) returns (r: Result<(), PushDenied>)
    ensures r == Validated(cap, req)
  {
    hide BranchUnderPrefix, WordCount, Destination, Trim;
    if req.host !in ALLOWED_HOSTS {
      return Err(Host(req.host));
    }
    if req.repo != cap.repo {
      return Err(RepoMismatch(req.repo, cap.repo));
    }
    if req.force {
      return Err(ForcePush);
    }
    for i := 0 to |req.refspecs|
      invariant FirstRefusal(req.refspecs[..i], cap.prefix) == None
    {
      TakeSnoc(req.refspecs, i);
      var spec := Trim(req.refspecs[i]);
      FirstRefusalStays(req.refspecs, i + 1, cap.prefix);
      if WordCount(spec, false) > 1 {
        return Err(ForcePush);
      }
      if "+" <= spec {
        return Err(ForcePush);
      }
      var branch := Destination(spec);
      if branch == "main" || branch == "master" || branch == "HEAD" {
        return Err(ProtectedBranch(branch));
      }
      if !BranchUnderPrefix(branch, cap.prefix) {
        return Err(BranchOutsidePrefix(branch));
      }
    }
    assert req.refspecs[..|req.refspecs|] == req.refspecs;
    r := Ok(());
  }

  lemma {:induction false} FirstRefusalStays(refspecs: seq<string>, i: nat, prefix: string)
    requires i <= |refspecs|
    ensures FirstRefusal(refspecs[..i], prefix).Some?
            ==> FirstRefusal(refspecs, prefix) == FirstRefusal(refspecs[..i], prefix)
  {
    hide Refusal;
    if i == |refspecs| {
      assert refspecs[..i] == refspecs;
    } else {
      assert refspecs[..|refspecs| - 1][..i] == refspecs[..i];
      FirstRefusalStays(refspecs[..|refspecs| - 1], i, prefix);
    }
  }

  lemma {:induction false} NoneRefused(refspecs: seq<string>, prefix: string)
    ensures FirstRefusal(refspecs, prefix).None? <==> forall s | s in refspecs :: Refusal(s, prefix).None?
  {
    hide Refusal;
    if refspecs != [] {
      NoneRefused(refspecs[..|refspecs| - 1], prefix);
      assert refspecs == refspecs[..|refspecs| - 1] + [refspecs[|refspecs| - 1]];
    }
  }

  /** The destination is what follows the last colon, or everything when there is none. */
  lemma {:induction false} DestinationSplits(s: string)
    ensures var dst := AfterLastColon(s);
            ':' !in dst && (dst == s || exists src :: s == src + ":" + dst)
  {
    if s != [] && s[|s| - 1] != ':' {
      var front, c := s[..|s| - 1], s[|s| - 1];
      DestinationSplits(front);
      var d := AfterLastColon(front);
      if d != front {
        var src :| front == src + ":" + d;
        assert s == src + ":" + (d + [c]);
      }
    } else if s != [] {
      assert s == s[..|s| - 1] + ":" + [];
    }
  }

  /** One refspec is in scope: a single unforced word whose destination is not protected, has no
      dot segment, and starts with the segments of the (non-empty) prefix. */
  predicate InScope(spec: string, prefix: string) {
    var s := Trim(spec);
    var branch := Destination(s);
    && Blankless(s) && !("+" <= s)
    && branch != "main" && branch != "master" && branch != "HEAD" && !DotSegment(branch)
    && TrimSlashes(prefix) != "" && Split(TrimSlashes(prefix)) <= Split(branch)
  }

  /** A push is accepted exactly when host and repository match, nothing is forced, and every
      refspec is in scope. */
  lemma AcceptedIffInScope(cap: WriteCap, req: PushRequest)
    ensures Validated(cap, req).Ok?
            <==> (req.host == "github.com" || req.host == "api.github.com") && req.repo == cap.repo && !req.force
                 && forall s | s in req.refspecs :: InScope(s, cap.prefix)
  {
    hide FirstRefusal, BranchUnderPrefix, WordCount, Destination, DotSegment, Blankless, Trim;
    NoneRefused(req.refspecs, cap.prefix);
    forall s ensures Refusal(s, cap.prefix).None? <==> InScope(s, cap.prefix) {
      ConfinedBySegments(Destination(Trim(s)), cap.prefix);
      SingleWord(s);
    }
  }

  /** Why one refspec is refused: several words or a leading plus is a force push; otherwise a protected
      destination, and otherwise one outside the prefix, is named. */
  lemma RefusalIs(spec: string, prefix: string)
    ensures var s := Trim(spec);
            var b, why := Destination(s), Refusal(spec, prefix);
            var single := Blankless(s) && !("+" <= s);
            var guarded := b == "main" || b == "master" || b == "HEAD";
            && (why == Some(ForcePush) <==> !single)
            && (why == Some(ProtectedBranch(b)) <==> single && guarded)
            && (why == Some(BranchOutsidePrefix(b)) <==> single && !guarded && !InScope(spec, prefix))
            && (why == None <==> InScope(spec, prefix))
  {
    hide BranchUnderPrefix, WordCount, Destination, DotSegment, Blankless, Trim;
    ConfinedBySegments(Destination(Trim(spec)), prefix);
    SingleWord(spec);
  }

  lemma {:induction false} FirstIs(refspecs: seq<string>, prefix: string)
    ensures var r := FirstRefusal(refspecs, prefix);
            r.Some? ==> exists k | 0 <= k < |refspecs| :: FirstAt(refspecs, prefix, k, r.value)
  {
    hide Refusal;
    if refspecs != [] {
      var front, last := refspecs[..|refspecs| - 1], refspecs[|refspecs| - 1];
      FirstIs(front, prefix);
      NoneRefused(front, prefix);
      var r := FirstRefusal(front, prefix);
      if r.Some? {
        var k :| 0 <= k < |front| && FirstAt(front, prefix, k, r.value);
        assert FirstAt(refspecs, prefix, k, r.value);
      } else if Refusal(last, prefix).Some? {
        forall j | 0 <= j < |front| ensures Refusal(refspecs[j], prefix) == None {
          assert front[j] in front;
        }
        assert FirstAt(refspecs, prefix, |refspecs| - 1, Refusal(last, prefix).value);
      }
    }
  }

  /** Refspec `k` is refused as `why`, and none before it is refused. */
  ghost predicate FirstAt(refspecs: seq<string>, prefix: string, k: nat, why: PushDenied) {
    && k < |refspecs| && Refusal(refspecs[k], prefix) == Some(why)
    && forall j | 0 <= j < k :: Refusal(refspecs[j], prefix) == None
  }

  /** Why a push is denied: an unknown host, another repository and a force flag in that order, and
      otherwise the refusal of the first refspec that is refused. */
  lemma DenialIs(cap: WriteCap, req: PushRequest)
    ensures var r := Validated(cap, req);
            var known := req.host == "github.com" || req.host == "api.github.com";
            && (!known ==> r == Err(Host(req.host)))
            && (known && req.repo != cap.repo ==> r == Err(RepoMismatch(req.repo, cap.repo)))
            && (known && req.repo == cap.repo && req.force ==> r == Err(ForcePush))
            && (known && req.repo == cap.repo && !req.force && r.Err? ==>
                  exists k | 0 <= k < |req.refspecs| :: FirstAt(req.refspecs, cap.prefix, k, r.error))
  {
    hide Refusal, FirstRefusal, FirstAt;
    FirstIs(req.refspecs, cap.prefix);
  }

  /** Pushing two lists of refspecs together is accepted exactly when each is. */
  lemma AcceptedTogether(cap: WriteCap, req: PushRequest, a: seq<string>, b: seq<string>)
    ensures Validated(cap, req.(refspecs := a + b)).Ok?
            <==> Validated(cap, req.(refspecs := a)).Ok? && Validated(cap, req.(refspecs := b)).Ok?
  {
    hide Validated, InScope;
    AcceptedIffInScope(cap, req.(refspecs := a));
    AcceptedIffInScope(cap, req.(refspecs := b));
    AcceptedIffInScope(cap, req.(refspecs := a + b));
  }

  // ----- parsing a push -----

  predicate ForceFlag(tok: string) {
    tok == "-f" || "--force" <= tok
  }

  function Positionals(argv: seq<string>): seq<string> {
    if argv == [] then [] else
    var tok := argv[|argv| - 1];
    Positionals(argv[..|argv| - 1]) + (if "-" <= tok then [] else [tok])
  }

  function SkipVerb(toks: seq<string>): seq<string> {
    if toks != [] && toks[0] == "push" then SkipVerb(toks[1..]) else toks
  }

  /** The refspecs of a push: its positional words after the verb and the remote. */
  function Refspecs(argv: seq<string>): seq<string> {
    var toks := SkipVerb(Positionals(argv));
    if toks == [] then [] else toks[1..]
  }

  lemma {:induction false} SkipVerbSnoc(toks: seq<string>, t: string)
    ensures SkipVerb(toks + [t]) == if SkipVerb(toks) == [] && t == "push" then [] else SkipVerb(toks) + [t]
  {
    if toks == [] {
      assert [] + [t] == [t] && [t][1..] == [];
    } else if toks[0] == "push" {
      assert (toks + [t])[0] == toks[0] && (toks + [t])[1..] == toks[1..] + [t];
      SkipVerbSnoc(toks[1..], t);
    }
  }

  predicate Forced(argv: seq<string>) {
    argv != [] && (Forced(argv[..|argv| - 1]) || ForceFlag(argv[|argv| - 1]))
  }

  lemma ForcedIff(argv: seq<string>)
    ensures Forced(argv) <==> exists t | t in argv :: t == "-f" || "--force" <= t
  {
    hide Forced;
    ForcedBySome(argv);
    forall t | t in argv ensures ForceFlag(t) <==> t == "-f" || "--force" <= t {
    }
  }

  lemma {:induction false} ForcedBySome(argv: seq<string>)
    ensures Forced(argv) <==> exists t | t in argv :: ForceFlag(t)
  {
    hide ForceFlag;
    if argv != [] {
      ForcedBySome(argv[..|argv| - 1]);
      assert argv == argv[..|argv| - 1] + [argv[|argv| - 1]];
    }
  }

  lemma PositionalsSnoc(argv: seq<string>, i: nat)
    requires i < |argv|
    ensures Positionals(argv[..i + 1])
            == if "-" <= argv[i] then Positionals(argv[..i]) else Positionals(argv[..i]) + [argv[i]]
  {
    TakeSnoc(argv, i);
  }

  /** What one more token adds. */
  lemma TokenStep(argv: seq<string>, i: nat)
    requires i < |argv|
    ensures var tok, seen := argv[i], SkipVerb(Positionals(argv[..i])) != [];
            && (Forced(argv[..i + 1]) <==> Forced(argv[..i]) || ForceFlag(tok))
            && (SkipVerb(Positionals(argv[..i + 1])) != [] <==> seen || (!("-" <= tok) && tok != "push"))
            && (!seen ==> Refspecs(argv[..i]) == [])
            && Refspecs(argv[..i + 1])
                 == (if seen && !("-" <= tok) then Refspecs(argv[..i]) + [tok] else Refspecs(argv[..i]))
            && (ForceFlag(tok) ==> "-" <= tok) && ("-" <= tok ==> tok != "push")
  {
    hide SkipVerb, ForceFlag, Positionals;
    var tok, toks := argv[i], SkipVerb(Positionals(argv[..i]));
    TakeSnoc(argv, i);
    PositionalsSnoc(argv, i);
    SkipVerbSnoc(Positionals(argv[..i]), tok);
    FlagsArePositionless(tok);
    if toks != [] {
      assert (toks + [tok])[1..] == toks[1..] + [tok];
    }
  }

  method ParsePushArgv(repo: string, host: string, argv: seq<string>) returns (req: PushRequest)
    ensures req == PushRequest(repo, host, Forced(argv), Refspecs(argv))
  {
    hide SkipVerb, ForceFlag, Positionals, Refspecs, Forced;
    var force, remoteSeen, refspecs := false, false, [];
    NoTokens();
    assert argv[..0] == [];
    for i := 0 to |argv|
      invariant force <==> Forced(argv[..i])
      invariant remoteSeen <==> SkipVerb(Positionals(argv[..i])) != []
      invariant refspecs == Refspecs(argv[..i])
    {
      var tok := argv[i];
      TokenStep(argv, i);
      if tok == "push" && !remoteSeen && refspecs == [] {
        continue;
      }
      if ForceFlag(tok) {
        force := true;
        continue;
      }
      if "-" <= tok {
        continue;
      }
      if !remoteSeen {
        remoteSeen := true;
        continue;
      }
      refspecs := refspecs + [tok];
    }
    assert argv[..|argv|] == argv;
    req := PushRequest(repo, host, force, refspecs);
  }

  lemma NoTokens()
    ensures !Forced([]) && SkipVerb(Positionals([])) == [] && Refspecs([]) == []
  {
  }

  lemma FlagsArePositionless(tok: string)
    ensures ForceFlag(tok) ==> "-" <= tok
    ensures "-" <= tok ==> tok != "push"
  {
    assert "-" <= tok ==> tok[0] == '-';
    assert "--force" <= tok ==> tok[0] == "--force"[0] == '-';
    assert tok == "push" ==> tok[0] == 'p';
  }

  /** Some word before `i` is the remote: neither a flag nor the verb. */
  ghost predicate RemoteBefore(argv: seq<string>, i: nat)
    requires i <= |argv|
  {
    exists j | 0 <= j < i :: !("-" <= argv[j]) && argv[j] != "push"
  }

  /** The words that are refspecs, by their place: no flags, and after the remote. */
  ghost function AfterRemote(argv: seq<string>, i: nat): seq<string>
    requires i <= |argv|
  {
    if i == 0 then [] else
    AfterRemote(argv, i - 1) + (if RemoteBefore(argv, i - 1) && !("-" <= argv[i - 1]) then [argv[i - 1]] else [])
  }

  lemma {:induction false} RefspecsUpTo(argv: seq<string>, i: nat)
    requires i <= |argv|
    ensures Refspecs(argv[..i]) == AfterRemote(argv, i)
    ensures SkipVerb(Positionals(argv[..i])) != [] <==> RemoteBefore(argv, i)
  {
    hide SkipVerb, ForceFlag, Positionals, Refspecs, Forced;
    if i == 0 {
      NoTokens();
      assert argv[..0] == [];
    } else {
      RefspecsUpTo(argv, i - 1);
      TokenStep(argv, i - 1);
      assert RemoteBefore(argv, i) <==>
               RemoteBefore(argv, i - 1) || (!("-" <= argv[i - 1]) && argv[i - 1] != "push");
    }
  }

  /** The refspecs of a push are exactly the words that are no flags and follow the first word that
      is neither a flag nor the verb. */
  lemma RefspecsAre(argv: seq<string>)
    ensures Refspecs(argv) == AfterRemote(argv, |argv|)
  {
    hide Refspecs;
    RefspecsUpTo(argv, |argv|);
    assert argv[..|argv|] == argv;
  }

  /** End to end: the checkpoint accepts a parsed push exactly when no token is a force flag and
      every positional word after the remote is in scope. */
  lemma ArgvAccepted(cap: WriteCap, host: string, argv: seq<string>)
    requires host in ALLOWED_HOSTS
    ensures Validated(cap, PushRequest(cap.repo, host, Forced(argv), Refspecs(argv))).Ok?
            <==> (forall t | t in argv :: t != "-f" && !("--force" <= t))
                 && forall s | s in Refspecs(argv) :: InScope(s, cap.prefix)
  {
    hide Validated, InScope, ForceFlag, Refspecs, Forced;
    ForcedIff(argv);
    AcceptedIffInScope(cap, PushRequest(cap.repo, host, Forced(argv), Refspecs(argv)));
  }
}
