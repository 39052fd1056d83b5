/** Name walking on a symlink-free share (devices/p9fs/qidobject.cpp and the name check of
    devices/p9fs/trequests.cpp). */
module P9Paths {
  import opened Words

  // ------------------------------------------------------------- legal names

  const UPPER := "ABCDEFGHIJKLMNOPQRSTUVWXYZ"
  const LOWER := "abcdefghijklmnopqrstuvwxyvz"
  const OTHER := "1234567890_-."
  const LEGAL := UPPER + LOWER + OTHER

  predicate DrawnFrom(s: string, alphabet: string) {
    forall i :: 0 <= i < |s| ==> s[i] in alphabet
  }

  predicate LegalName(s: string) {
    DrawnFrom(s, LEGAL)
  }

  /** The loop of the name check. */
  method CheckCharacters(s: string, alphabet: string) returns (ok: bool)
    ensures ok == DrawnFrom(s, alphabet)
  {
    for i := 0 to |s|
      invariant DrawnFrom(s[..i], alphabet)
    {
      if s[i] !in alphabet {
        return false;
      }
    }
    return true;
  }

  lemma DotsAreLegal()
    ensures LegalName(".") && LegalName("..")
  {
    assert OTHER[12] == '.';
    assert '.' in LEGAL;
  }

  lemma LegalHasNoSlash(s: string)
    requires LegalName(s)
    ensures '/' !in s
  {
    assert '/' !in UPPER;
    assert '/' !in LOWER;
    assert '/' !in OTHER;
  }

  // --------------------------------------------------------------- resolution

  /** The components between slashes, empty ones included. */
  function Split(s: string): (cs: seq<string>)
    ensures |cs| >= 1
  {
    if s == "" then [""]
    else
      var cs := Split(s[1..]);
      if s[0] == '/' then [""] + cs else [[s[0]] + cs[0]] + cs[1..]
  }

  /** One component applied to a resolved directory. */
  function Push(at: seq<string>, c: string): seq<string> {
    if c == "" || c == "." then at
    else if c == ".." then (if at == [] then [] else at[..|at| - 1])
    else at + [c]
  }

  function PushAll(at: seq<string>, cs: seq<string>): seq<string>
    decreases |cs|
  {
    if cs == [] then at else PushAll(Push(at, cs[0]), cs[1..])
  }

  /** Where an absolute path leads in a tree without symbolic links. */
  function Resolved(s: string): seq<string> {
    PushAll([], Split(s))
  }

  function Join(cs: seq<string>): string {
    if cs == [] then "" else "/" + cs[0] + Join(cs[1..])
  }

  /** `realpath` of an existing absolute path. */
  function Realpath(s: string): string {
    if Resolved(s) == [] then "/" else Join(Resolved(s))
  }

  predicate Canonical(s: string) {
    Realpath(s) == s
  }

  /** The path `Traverse` asks the file system about. */
  function Step(path: string, root: string, name: string): string {
    if path == root && name == ".." then path else path + "/" + name
  }

  /** The path of the object `Traverse` returns, if it exists. */
  function Next(path: string, root: string, name: string): string {
    Realpath(Step(path, root, name))
  }

  /** At or below the root. */
  predicate Within(root: string, path: string) {
    Resolved(root) <= Resolved(path)
  }

  // ------------------------------------------------------------------ lemmas

  lemma {:induction false} SplitAtSlash(s: string, t: string)
    ensures Split(s + "/" + t) == Split(s) + Split(t)
  {
    if s == "" {
      assert s + "/" + t == "/" + t;
      assert ("/" + t)[1..] == t;
    } else {
      assert (s + "/" + t)[1..] == s[1..] + "/" + t;
      SplitAtSlash(s[1..], t);
    }
  }

  lemma {:induction false} SplitPlain(s: string)
    requires '/' !in s
    ensures Split(s) == [s]
  {
    if s != "" {
      SplitPlain(s[1..]);
      assert [s[0]] + s[1..] == s;
    }
  }

  lemma {:induction false} SplitHasNoSlash(s: string)
    ensures forall i :: 0 <= i < |Split(s)| ==> '/' !in Split(s)[i]
  {
    if s != "" {
      SplitHasNoSlash(s[1..]);
    }
  }

  lemma {:induction false} PushAllConcat(at: seq<string>, a: seq<string>, b: seq<string>)
    ensures PushAll(at, a + b) == PushAll(PushAll(at, a), b)
    decreases |a|
  {
    hide Push;
    if a == [] {
      assert a + b == b;
    } else {
      PushAllConcat(Push(at, a[0]), a[1..], b);
      assert (a + b)[1..] == a[1..] + b;
    }
  }

  /** A plain name moves one step from where the path leads. */
  lemma ResolvedStep(path: string, name: string)
    requires '/' !in name
    ensures Resolved(path + "/" + name) == Push(Resolved(path), name)
  {
    SplitAtSlash(path, name);
    SplitPlain(name);
    PushAllConcat([], Split(path), [name]);
    assert PushAll(Resolved(path), [name]) == Push(Resolved(path), name);
  }

  predicate Proper(c: string) {
    c != "" && c != "." && c != ".." && '/' !in c
  }

  predicate AllProper(cs: seq<string>) {
    forall i :: 0 <= i < |cs| ==> Proper(cs[i])
  }

  lemma {:induction false} PushAllProper(at: seq<string>, cs: seq<string>)
    requires AllProper(at) && forall i :: 0 <= i < |cs| ==> '/' !in cs[i]
    ensures AllProper(PushAll(at, cs))
    decreases |cs|
  {
    if cs != [] {
      PushAllProper(Push(at, cs[0]), cs[1..]);
    }
  }

  lemma ResolvedProper(s: string)
    ensures AllProper(Resolved(s))
  {
    SplitHasNoSlash(s);
    PushAllProper([], Split(s));
  }

  lemma {:induction false} SplitJoin(cs: seq<string>)
    requires AllProper(cs)
    ensures Split(Join(cs)) == if cs == [] then [""] else [""] + cs
    decreases |cs|
  {
    if cs != [] {
      var rest := Join(cs[1..]);
      SplitJoin(cs[1..]);
      SplitPlain(cs[0]);
      if cs[1..] == [] {
        assert Join(cs) == "" + "/" + cs[0];
        SplitAtSlash("", cs[0]);
        assert cs == [cs[0]];
      } else {
        var tail := rest[1..];
        assert rest == "/" + tail;
        assert Join(cs) == "" + "/" + (cs[0] + "/" + tail);
        SplitAtSlash("", cs[0] + "/" + tail);
        SplitAtSlash(cs[0], tail);
        SplitAtSlash("", tail);
        assert "" + "/" + tail == rest;
        assert [""] + Split(tail) == [""] + cs[1..];
        assert Split(tail) == cs[1..] by {
          assert ([""] + Split(tail))[1..] == Split(tail);
        }
        assert [cs[0]] + cs[1..] == cs;
      }
    }
  }

  lemma {:induction false} PushAllOfProper(at: seq<string>, cs: seq<string>)
    requires AllProper(cs)
    ensures PushAll(at, cs) == at + cs
    decreases |cs|
  {
    if cs != [] {
      PushAllOfProper(at + [cs[0]], cs[1..]);
      assert at + [cs[0]] + cs[1..] == at + cs;
    }
  }

  /** `realpath` is idempotent. */
  lemma RealpathCanonical(s: string)
    ensures Resolved(Realpath(s)) == Resolved(s) && Canonical(Realpath(s))
  {
    var cs := Resolved(s);
    ResolvedProper(s);
    SplitJoin(cs);
    if cs == [] {
      assert Split("/") == ["", ""] by {
        SplitAtSlash("", "");
        assert "" + "/" + "" == "/";
      }
      assert PushAll([], ["", ""]) == PushAll([], [""]) == [];
    } else {
      PushAllOfProper([], cs);
      assert ([""] + cs)[1..] == cs;
      assert PushAll([], [""] + cs) == PushAll([], cs);
      assert [] + cs == cs;
    }
  }

  /** From a canonical object below a canonical root, a plain name leads to one. */
  lemma NextStaysWithin(path: string, root: string, name: string)
    requires Canonical(root) && Canonical(path) && Within(root, path) && '/' !in name
    ensures Canonical(Next(path, root, name)) && Within(root, Next(path, root, name))
  {
    var step := Step(path, root, name);
    RealpathCanonical(step);
    if step != path {
      ResolvedStep(path, name);
      if name == ".." {
        assert Resolved(path) != Resolved(root);
      }
    }
  }

  /** A canonical path at or below the root. */
  predicate Safe(root: string, path: string) {
    Canonical(path) && Within(root, path)
  }

  lemma RootIsSafe(root: string)
    requires Canonical(root)
    ensures Safe(root, root)
  {
  }

  lemma NextIsSafe(path: string, root: string, name: string)
    requires Canonical(root) && Safe(root, path) && LegalName(name)
    ensures Safe(root, Next(path, root, name))
  {
    LegalHasNoSlash(name);
    NextStaysWithin(path, root, name);
  }

  // -------------------------------------------------------------- whole walks

  function Walk(path: string, root: string, names: seq<string>): string
    decreases |names|
  {
    if names == [] then path else Walk(Next(path, root, names[0]), root, names[1..])
  }

  predicate AllLegal(names: seq<string>) {
    forall i :: 0 <= i < |names| ==> LegalName(names[i])
  }

  lemma {:induction false} WalkStaysWithin(path: string, root: string, names: seq<string>)
    requires Canonical(root) && Canonical(path) && Within(root, path) && AllLegal(names)
    ensures Canonical(Walk(path, root, names)) && Within(root, Walk(path, root, names))
    decreases |names|
  {
    if names != [] {
      LegalHasNoSlash(names[0]);
      NextStaysWithin(path, root, names[0]);
      WalkStaysWithin(Next(path, root, names[0]), root, names[1..]);
    }
  }

  /** If the configured root is not what `realpath` returns for it, the root test never recognises
      the directory again after one step, and the walk [".", ".."] leaves the share. */
  lemma UncanonicalRootEscapes(root: string)
    requires !Canonical(root) && Resolved(root) != []
    ensures AllLegal([".", ".."]) && !Within(root, Walk(root, root, [".", ".."]))
  {
    var here := Realpath(root + "/" + ".");
    ResolvedStep(root, ".");
    RealpathCanonical(root + "/" + ".");
    assert Next(root, root, ".") == here && here != root;
    ResolvedStep(here, "..");
    RealpathCanonical(here + "/" + "..");
    assert [".", ".."][1..] == [".."] && [".."][1..] == [];
    assert Walk(root, root, [".", ".."]) == Walk(here, root, [".."]);
    assert Walk(here, root, [".."]) == Next(here, root, "..");
    DotsAreLegal();
  }

  /** Walks from the root stay inside the share for all legal names if and only if the configured
      root is canonical. */
  lemma ContainmentIffCanonicalRoot(root: string)
    requires Resolved(root) != []
    ensures (forall names :: AllLegal(names) ==> Within(root, Walk(root, root, names))) <==> Canonical(root)
  {
    if Canonical(root) {
      forall names | AllLegal(names)
        ensures Within(root, Walk(root, root, names))
      {
        WalkStaysWithin(root, root, names);
      }
    } else {
      UncanonicalRootEscapes(root);
    }
  }

  lemma {:induction false} JoinConcat(a: seq<string>, b: seq<string>)
    ensures Join(a + b) == Join(a) + Join(b)
    decreases |a|
  {
    if a == [] {
      assert a + b == b;
    } else {
      JoinConcat(a[1..], b);
      assert (a + b)[1..] == a[1..] + b;
      var first, rest := "/" + a[0], Join(a[1..]);
      assert first + (rest + Join(b)) == first + rest + Join(b);
    }
  }

  /** What containment means for the path strings: the root itself, or the root, a slash and more. */
  lemma WithinAsPrefix(root: string, path: string)
    requires Canonical(root) && Canonical(path) && Within(root, path) && Resolved(root) != []
    ensures path == root || root + "/" <= path
  {
    var a, b := Resolved(root), Resolved(path)[|Resolved(root)|..];
    assert Resolved(path) == a + b;
    JoinConcat(a, b);
    if b != [] {
      assert Join(b) == "/" + b[0] + Join(b[1..]);
    }
  }

  // ------------------------------------------------------------- where walks lead

  /** A proper name leads to the entry of that name. */
  lemma NextDescends(path: string, root: string, name: string)
    requires Canonical(path) && Resolved(path) != [] && Proper(name)
    ensures Next(path, root, name) == path + "/" + name && Canonical(path + "/" + name)
    ensures Resolved(path + "/" + name) == Resolved(path) + [name]
  {
    ResolvedStep(path, name);
    RealpathCanonical(path + "/" + name);
    JoinConcat(Resolved(path), [name]);
    assert Join([name]) == "/" + name by {
      assert [name][1..] == [] && "/" + name + "" == "/" + name;
    }
    assert path + ("/" + name) == path + "/" + name;
  }

  lemma AppendedNonEmpty(path: string, name: string)
    requires Resolved(path + "/" + name) == Resolved(path) + [name]
    ensures Resolved(path + "/" + name) != []
  {
  }

  lemma FirstOfJoin(path: string, names: seq<string>)
    requires names != []
    ensures path + "/" + names[0] + Join(names[1..]) == path + Join(names)
  {
    var first, rest := "/" + names[0], Join(names[1..]);
    ConcatAssociates(path, "/", names[0]);
    ConcatAssociates(path, first, rest);
  }

  /** Proper names lead down, one directory each, whatever the root. */
  lemma {:induction false} WalkDescends(path: string, root: string, names: seq<string>)
    requires Canonical(path) && Resolved(path) != [] && AllProper(names)
    ensures Walk(path, root, names) == path + Join(names)
    decreases |names|
  {
    if names == [] {
      assert path + "" == path;
    } else {
      hide Next, Resolved, Canonical;
      var below, rest := path + "/" + names[0], Join(names[1..]);
      NextDescends(path, root, names[0]);
      AppendedNonEmpty(path, names[0]);
      WalkDescends(below, root, names[1..]);
      assert Walk(path, root, names) == below + rest;
      hide Join, Walk;
      FirstOfJoin(path, names);
    }
  }

  /** From any object of the share, ".." undoes a proper name, and "." does nothing. */
  lemma WalkReturns(path: string, root: string, name: string)
    requires Canonical(root) && Safe(root, path) && Resolved(path) != [] && Proper(name)
    ensures Walk(path, root, [name, ".."]) == path && Next(path, root, ".") == path
  {
    var below := path + "/" + name;
    NextDescends(path, root, name);
    assert below != root by {
      assert |Resolved(below)| > |Resolved(root)|;
    }
    ResolvedStep(below, "..");
    RealpathCanonical(below + "/" + "..");
    ResolvedStep(path, ".");
    RealpathCanonical(path + "/" + ".");
    assert Resolved(path) + [name] == Resolved(below);
    assert (Resolved(path) + [name])[..|Resolved(path)|] == Resolved(path);
    assert Next(below, root, "..") == path;
    assert [name, ".."][1..] == [".."] && [".."][1..] == [];
    assert Walk(path, root, [name, ".."]) == Walk(below, root, [".."]) == Next(below, root, "..");
  }
}
