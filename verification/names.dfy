/** File names as bytes, and the order in which the system lists and compares paths: names byte by
    byte, paths name by name. */
module Names {
  import opened Foundation

  type Name = seq<byte>

  type FsPath = seq<Name>

  predicate NameLe(a: Name, b: Name) {
    a == [] || (b != [] && (a[0] < b[0] || (a[0] == b[0] && NameLe(a[1..], b[1..]))))
  }

  predicate PathLe(a: FsPath, b: FsPath) {
    a == [] || (b != [] && if a[0] == b[0] then PathLe(a[1..], b[1..]) else NameLe(a[0], b[0]))
  }

  /** `i` is the first place in which two sequences differ. */
  ghost predicate FirstDiffer<T>(a: seq<T>, b: seq<T>, i: nat) {
    i < |a| && i < |b| && a[i] != b[i] && forall j | 0 <= j < i :: a[j] == b[j]
  }

  lemma Shifted<T>(a: seq<T>, b: seq<T>, i: nat)
    requires a != [] && b != [] && a[0] == b[0]
    ensures FirstDiffer(a[1..], b[1..], i) <==> FirstDiffer(a, b, i + 1)
  {
    if FirstDiffer(a[1..], b[1..], i) {
      forall j | 0 <= j < i + 1 ensures a[j] == b[j] {
        assert j > 0 ==> a[j] == a[1..][j - 1] && b[j] == b[1..][j - 1];
      }
    }
    if FirstDiffer(a, b, i + 1) {
      forall j | 0 <= j < i ensures a[1..][j] == b[1..][j] {
        assert a[1..][j] == a[j + 1] && b[1..][j] == b[j + 1];
      }
    }
  }

  lemma TailPrefix<T>(a: seq<T>, b: seq<T>)
    requires a != [] && b != [] && a[0] == b[0]
    ensures a <= b <==> a[1..] <= b[1..]
  {
    assert a == [a[0]] + a[1..] && b == [b[0]] + b[1..];
  }

  /** Names are ordered by the first byte in which they differ, and a name before its extensions. */
  lemma {:induction false} NameLeIs(a: Name, b: Name)
    ensures NameLe(a, b) <==> a <= b || exists i: nat :: FirstDiffer(a, b, i) && a[i] < b[i]
  {
    if a != [] && b != [] {
      if a[0] == b[0] {
        NameLeIs(a[1..], b[1..]);
        TailPrefix(a, b);
        forall i: nat ensures FirstDiffer(a[1..], b[1..], i) <==> FirstDiffer(a, b, i + 1) {
          Shifted(a, b, i);
        }
        if i: nat :| FirstDiffer(a, b, i) && a[i] < b[i] {
          assert FirstDiffer(a[1..], b[1..], i - 1);
        }
        if i: nat :| FirstDiffer(a[1..], b[1..], i) && a[1..][i] < b[1..][i] {
          assert FirstDiffer(a, b, i + 1);
        }
      } else {
        assert FirstDiffer(a, b, 0);
        assert forall i: nat | FirstDiffer(a, b, i) :: i == 0;
      }
    }
  }

  /** Paths are ordered by the first name in which they differ, and a path before what is below it. */
  lemma {:induction false} PathLeIs(a: FsPath, b: FsPath)
    ensures PathLe(a, b) <==> a <= b || exists i: nat :: FirstDiffer(a, b, i) && NameLe(a[i], b[i])
  {
    hide NameLe;
    if a != [] && b != [] {
      if a[0] == b[0] {
        PathLeIs(a[1..], b[1..]);
        TailPrefix(a, b);
        forall i: nat ensures FirstDiffer(a[1..], b[1..], i) <==> FirstDiffer(a, b, i + 1) {
          Shifted(a, b, i);
        }
        if i: nat :| FirstDiffer(a, b, i) && NameLe(a[i], b[i]) {
          assert FirstDiffer(a[1..], b[1..], i - 1);
        }
        if i: nat :| FirstDiffer(a[1..], b[1..], i) && NameLe(a[1..][i], b[1..][i]) {
          assert FirstDiffer(a, b, i + 1);
        }
      } else {
        assert FirstDiffer(a, b, 0);
        assert forall i: nat | FirstDiffer(a, b, i) :: i == 0;
      }
    }
  }

  lemma {:induction false} NamesTotal(a: Name, b: Name)
    ensures NameLe(a, b) || NameLe(b, a)
    ensures NameLe(a, b) && NameLe(b, a) ==> a == b
  {
    if a != [] && b != [] {
      NamesTotal(a[1..], b[1..]);
      assert a == [a[0]] + a[1..] && b == [b[0]] + b[1..];
    }
  }

  lemma {:induction false} NamesChain(a: Name, b: Name, c: Name)
    requires NameLe(a, b) && NameLe(b, c)
    ensures NameLe(a, c)
  {
    if a != [] && b != [] && c != [] && a[0] == b[0] == c[0] {
      NamesChain(a[1..], b[1..], c[1..]);
    }
  }

  lemma {:induction false} PathsTotal(a: FsPath, b: FsPath)
    ensures PathLe(a, b) || PathLe(b, a)
    ensures PathLe(a, b) && PathLe(b, a) ==> a == b
  {
    hide NameLe;
    if a != [] && b != [] {
      NamesTotal(a[0], b[0]);
      PathsTotal(a[1..], b[1..]);
      assert a == [a[0]] + a[1..] && b == [b[0]] + b[1..];
    }
  }

  lemma {:induction false} PathsChain(a: FsPath, b: FsPath, c: FsPath)
    requires PathLe(a, b) && PathLe(b, c)
    ensures PathLe(a, c)
  {
    hide NameLe;
    if a != [] && b != [] && c != [] {
      if a[0] == b[0] == c[0] {
        PathsChain(a[1..], b[1..], c[1..]);
      } else if a[0] != b[0] && b[0] != c[0] {
        NamesTotal(a[0], b[0]);
        NamesChain(a[0], b[0], c[0]);
      }
    }
  }

  /** `p` comes first among `paths`. */
  predicate IsFirst(p: FsPath, paths: set<FsPath>) {
    p in paths && forall q | q in paths :: PathLe(p, q)
  }

  lemma FirstExists(paths: set<FsPath>) returns (first: FsPath)
    requires paths != {}
    ensures IsFirst(first, paths)
    decreases |paths|
  {
    var p :| p in paths;
    var rest := paths - {p};
    first := p;
    PathsTotal(p, p);
    if rest != {} {
      var q := FirstExists(rest);
      PathsTotal(p, q);
      if !PathLe(p, q) {
        first := q;
      } else {
        forall x | x in paths ensures PathLe(p, x) {
          if x != p {
            PathsChain(p, q, x);
          }
        }
      }
    }
    assert forall x | x in paths :: x == p || x in rest;
  }
}
