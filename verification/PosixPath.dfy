/** The text form of a POSIX path: repeated slashes, "." parts and trailing slashes disappear. */
module PosixPath {
  import opened Text

  /** Two leading slashes are kept, three or more count as one. */
  function Root(p: string): (root: string)
    ensures |root| <= |p| && p[..|root|] == root
  {
    if p == "" || p[0] != '/' then ""
    else if |p| >= 2 && p[1] == '/' && !(|p| >= 3 && p[2] == '/') then "//"
    else "/"
  }

  /** The root of a path by how many slashes it starts with: none, exactly two, or any other number. */
  lemma RootExactly(p: string, rest: string)
    requires rest == "" || rest[0] != '/'
    ensures p == rest ==> Root(p) == ""
    ensures p == "/" + rest ==> Root(p) == "/"
    ensures p == "//" + rest ==> Root(p) == "//"
    ensures forall more: string :: p == "///" + more ==> Root(p) == "/"
  {
  }

  predicate IsPart(part: string) {
    part != "" && part != "." && '/' !in part
  }

  function Kept(parts: seq<string>): seq<string> {
    if parts == [] then []
    else (if parts[0] == "" || parts[0] == "." then [] else [parts[0]]) + Kept(parts[1..])
  }

  function Tail(p: string): seq<string> {
    Kept(Split(p[|Root(p)|..], '/'))
  }

  function Assemble(root: string, tail: seq<string>): string {
    if tail != [] then root + Join(tail, '/') else if root == "" then "." else root
  }

  /** `str(Path(p))`. */
  function Normal(p: string): string {
    Assemble(Root(p), Tail(p))
  }

  lemma {:induction false} KeptAreParts(parts: seq<string>)
    requires forall i :: 0 <= i < |parts| ==> '/' !in parts[i]
    ensures forall i :: 0 <= i < |Kept(parts)| ==> IsPart(Kept(parts)[i])
  {
    if parts != [] {
      KeptAreParts(parts[1..]);
    }
  }

  lemma {:induction false} PartsAreKept(parts: seq<string>)
    requires forall i :: 0 <= i < |parts| ==> IsPart(parts[i])
    ensures Kept(parts) == parts
  {
    if parts != [] {
      assert IsPart(parts[0]);
      PartsAreKept(parts[1..]);
    }
  }

  lemma KeptOne(part: string)
    ensures Kept([part]) == if part == "" || part == "." then [] else [part]
  {
    assert [part][1..] == [];
  }

  /** An assembled path comes apart into what it was assembled from. */
  lemma AssembleComesApart(root: string, tail: seq<string>)
    requires root in {"", "/", "//"}
    requires forall i :: 0 <= i < |tail| ==> IsPart(tail[i])
    ensures Root(Assemble(root, tail)) == root && Tail(Assemble(root, tail)) == tail
  {
    var p := Assemble(root, tail);
    if tail == [] {
      var rest := if root == "" then "." else "";
      assert p == root + rest;
      assert Root(p) == root && p[|root|..] == rest;
      SplitWhole(rest, '/');
      KeptOne(rest);
    } else {
      var body := Join(tail, '/');
      assert IsPart(tail[0]);
      assert body[0] == tail[0][0] && tail[0][0] in tail[0];
      assert Root(p) == root && p[|root|..] == body;
      SplitJoin(tail, '/');
      PartsAreKept(tail);
    }
  }

  lemma NormalIsNormal(p: string)
    ensures Normal(Normal(p)) == Normal(p)
    ensures Normal(p) != ""
  {
    SplitPartsLackSep(p[|Root(p)|..], '/');
    KeptAreParts(Split(p[|Root(p)|..], '/'));
    AssembleComesApart(Root(p), Tail(p));
    if Tail(p) != [] {
      assert IsPart(Tail(p)[0]);
    }
  }

  /** A trailing slash is lost. */
  lemma TrailingSlashIsLost()
    ensures Normal("a/") == "a"
  {
    SplitFirst("a", '/', "");
    SplitWhole("", '/');
    assert "a/"[0..] == "a" + ['/'] + "";
    assert Split("a/", '/') == ["a", ""];
    assert ["a", ""][1..] == [""];
    assert [""][1..] == [];
    assert Kept([""]) == [];
    assert Kept(["a", ""]) == ["a"];
  }
}
