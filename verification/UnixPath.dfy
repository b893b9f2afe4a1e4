// Path equality by components, as the standard library compares paths on Unix:
// repeated and trailing separators do not count, nor does `.` except in front.
module UnixPath {
  // The pieces of a path whose first character is c, from those of the rest.
  function Before(c: char, rest: seq<string>): (pieces: seq<string>)
    requires rest != []
    ensures pieces != []
  {
    if c == '/' then [""] + rest else [[c] + rest[0]] + rest[1..]
  }

  function Pieces(path: string): (pieces: seq<string>)
    ensures pieces != []
  {
    if path == "" then [""] else Before(path[0], Pieces(path[1..]))
  }

  function Significant(pieces: seq<string>): seq<string> {
    if pieces == [] then []
    else
      var init := Significant(pieces[..|pieces| - 1]);
      var last := pieces[|pieces| - 1];
      if last == "" || (last == "." && |pieces| > 1) then init else init + [last]
  }

  predicate IsAbsolute(path: string) {
    path != "" && path[0] == '/'
  }

  predicate SamePath(a: string, b: string) {
    IsAbsolute(a) == IsAbsolute(b) && Significant(Pieces(a)) == Significant(Pieces(b))
  }

  // ---- which paths are the same --------------------------------------------

  lemma BeforeConcat(c: char, rest: seq<string>, more: seq<string>)
    requires rest != []
    ensures Before(c, rest + more) == Before(c, rest) + more
  {
    assert (rest + more)[1..] == rest[1..] + more;
  }

  lemma TailOf(a: string, rest: string)
    requires a != ""
    ensures (a + rest)[0] == a[0] && (a + rest)[1..] == a[1..] + rest
  {
  }

  lemma {:induction false} PiecesConcat(a: string, b: string)
    ensures Pieces(a + "/" + b) == Pieces(a) + Pieces(b)
    decreases |a|
  {
    assert a + "/" + b == a + ("/" + b);
    if a == "" {
      TailOf("/", b);
    } else {
      TailOf(a, "/" + b);
      assert a[1..] + "/" + b == a[1..] + ("/" + b);
      PiecesConcat(a[1..], b);
      BeforeConcat(a[0], Pieces(a[1..]), Pieces(b));
    }
  }

  lemma {:induction false} PiecesOfOne(component: string)
    requires '/' !in component
    ensures Pieces(component) == [component]
    decreases |component|
  {
    if component != "" {
      PiecesOfOne(component[1..]);
      assert component == [component[0]] + component[1..];
    }
  }

  // What a piece that is not the first adds.
  function Later(piece: string): seq<string> {
    if piece == "" || piece == "." then [] else [piece]
  }

  function Laters(pieces: seq<string>): seq<string> {
    if pieces == [] then [] else Laters(pieces[..|pieces| - 1]) + Later(pieces[|pieces| - 1])
  }

  lemma {:induction false} SignificantConcat(a: seq<string>, b: seq<string>)
    requires a != []
    ensures Significant(a + b) == Significant(a) + Laters(b)
    decreases |b|
  {
    if b == [] {
      assert a + b == a;
    } else {
      assert (a + b)[..|a + b| - 1] == a + b[..|b| - 1];
      SignificantConcat(a, b[..|b| - 1]);
    }
  }

  lemma {:induction false} LatersConcat(a: seq<string>, b: seq<string>)
    ensures Laters(a + b) == Laters(a) + Laters(b)
    decreases |b|
  {
    if b == [] {
      assert a + b == a;
    } else {
      assert (a + b)[..|a + b| - 1] == a + b[..|b| - 1];
      LatersConcat(a, b[..|b| - 1]);
    }
  }

  lemma Split(a: string, b: string)
    ensures Significant(Pieces(a + "/" + b)) == Significant(Pieces(a)) + Laters(Pieces(b))
    ensures IsAbsolute(a + "/" + b) <==> a == "" || IsAbsolute(a)
  {
    PiecesConcat(a, b);
    SignificantConcat(Pieces(a), Pieces(b));
    assert (a + "/" + b)[0] == if a == "" then '/' else a[0];
  }

  lemma LatersOfOne(piece: string)
    ensures Laters([piece]) == Later(piece)
  {
    assert [piece][..0] == [];
  }

  lemma LatersAfter(piece: string, b: string)
    requires piece == "" || piece == "."
    ensures Laters(Pieces(piece + "/" + b)) == Laters(Pieces(b))
  {
    PiecesOfOne(piece);
    PiecesConcat(piece, b);
    LatersConcat([piece], Pieces(b));
    LatersOfOne(piece);
  }

  // A repeated separator, and `.` between two of them, make no other path.
  lemma SeparatorsDoNotCount(a: string, b: string)
    ensures SamePath(a + "/" + ("" + "/" + b), a + "/" + b)
    ensures SamePath(a + "/" + ("." + "/" + b), a + "/" + b)
  {
    Split(a, b);
    Split(a, "" + "/" + b);
    Split(a, "." + "/" + b);
    LatersAfter("", b);
    LatersAfter(".", b);
  }

  // Nor does a separator at the end, unless it is the whole path.
  lemma TrailingDoesNotCount(a: string)
    requires a != ""
    ensures SamePath(a + "/" + "", a)
  {
    Split(a, "");
    PiecesOfOne("");
    LatersOfOne("");
  }

  predicate IsOrdinary(component: string) {
    component != "" && component != "." && '/' !in component
  }

  function Joined(components: seq<string>): string {
    if components == [] then ""
    else if |components| == 1 then components[0]
    else Joined(components[..|components| - 1]) + "/" + components[|components| - 1]
  }

  lemma {:induction false} PiecesOfJoined(components: seq<string>)
    requires components != [] && forall i :: 0 <= i < |components| ==> IsOrdinary(components[i])
    ensures Pieces(Joined(components)) == components && Significant(components) == components
    ensures !IsAbsolute(Joined(components))
    decreases |components|
  {
    var last := components[|components| - 1];
    PiecesOfOne(last);
    if |components| == 1 {
      assert components[..0] == [] && components == [last];
      assert last[0] in last;
    } else {
      var init := components[..|components| - 1];
      PiecesOfJoined(init);
      PiecesConcat(Joined(init), last);
      assert components == init + [last];
      assert Joined(init) != "" by { assert Pieces("") == [""]; assert IsOrdinary(init[0]); }
    }
  }

  // Paths of ordinary components are the same only if they are equal, and a
  // relative path is never the same as an absolute one.
  lemma OrdinaryPathsDiffer(a: seq<string>, b: seq<string>)
    requires a != [] && b != []
    requires forall i :: 0 <= i < |a| ==> IsOrdinary(a[i])
    requires forall i :: 0 <= i < |b| ==> IsOrdinary(b[i])
    ensures SamePath(Joined(a), Joined(b)) <==> a == b
    ensures SamePath("" + "/" + Joined(a), "" + "/" + Joined(b)) <==> a == b
    ensures !SamePath(Joined(a), "" + "/" + Joined(b))
  {
    PiecesOfJoined(a);
    PiecesOfJoined(b);
    UnderRoot(a);
    UnderRoot(b);
  }

  lemma UnderRoot(components: seq<string>)
    requires components != [] && forall i :: 0 <= i < |components| ==> IsOrdinary(components[i])
    ensures IsAbsolute("" + "/" + Joined(components))
    ensures Significant(Pieces("" + "/" + Joined(components))) == components
  {
    Split("", Joined(components));
    PiecesOfJoined(components);
    LatersOfOrdinary(components);
    PiecesOfOne("");
    NothingSignificant();
  }

  lemma NothingSignificant()
    ensures Significant([""]) == []
  {
    assert [""][..0] == [];
  }

  lemma {:induction false} LatersOfOrdinary(components: seq<string>)
    requires forall i :: 0 <= i < |components| ==> IsOrdinary(components[i])
    ensures Laters(components) == components
    decreases |components|
  {
    if components != [] {
      LatersOfOrdinary(components[..|components| - 1]);
    }
  }
}
