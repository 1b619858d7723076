/** String.Split(string[] separators, StringSplitOptions.RemoveEmptyEntries),
    the .NET operation the header parser is built from. The string is scanned
    from left to right; at each position the separators are tried in array
    order and the first non-empty one that occurs there is consumed. The text
    between consecutive matches forms the pieces, and empty pieces are dropped. */
module StringSplit {

  predicate StartsWith(s: string, prefix: string)
  {
    |prefix| <= |s| && s[..|prefix|] == prefix
  }

  /** The length of the first separator, in array order, that is non-empty and
      occurs at the start of `s`; 0 when none does. */
  function SeparatorAt(s: string, separators: seq<string>): (n: nat)
    ensures n > 0 <==> exists i :: 0 <= i < |separators| && separators[i] != "" && StartsWith(s, separators[i])
    ensures n > 0 ==> n <= |s| && s[..n] in separators
  {
    if separators == [] then 0
    else if separators[0] != "" && StartsWith(s, separators[0]) then |separators[0]|
    else
      var n := SeparatorAt(s, separators[1..]);
      assert forall i :: 1 <= i < |separators| ==> separators[i] == separators[1..][i - 1];
      n
  }

  /** The pieces String.Split produces before empty entries are removed: always
      one more than the number of separator matches. */
  function Pieces(s: string, separators: seq<string>): (ps: seq<string>)
    ensures |ps| >= 1
    decreases |s|
  {
    if s == [] then [""]
    else
      var n := SeparatorAt(s, separators);
      if n > 0 then [""] + Pieces(s[n..], separators)
      else
        var rest := Pieces(s[1..], separators);
        [[s[0]] + rest[0]] + rest[1..]
  }

  /** StringSplitOptions.RemoveEmptyEntries: the non-empty pieces, all of
      them, in order (order is RemoveEmptyAppend). */
  function RemoveEmpty(ps: seq<string>): (r: seq<string>)
    ensures forall i :: 0 <= i < |r| ==> r[i] != ""
    ensures forall x :: x in r <==> x in ps && x != ""
    ensures |r| <= |ps|
    ensures (forall i :: 0 <= i < |ps| ==> ps[i] != "") ==> r == ps
  {
    if ps == [] then []
    else
      assert forall i :: 1 <= i < |ps| ==> ps[i] == ps[1..][i - 1];
      assert ps == [ps[0]] + ps[1..];
      (if ps[0] == "" then [] else [ps[0]]) + RemoveEmpty(ps[1..])
  }

  /** Removing empty pieces works piecewise, so the kept pieces stay in their
      order. */
  lemma {:induction false} RemoveEmptyAppend(a: seq<string>, b: seq<string>)
    ensures RemoveEmpty(a + b) == RemoveEmpty(a) + RemoveEmpty(b)
  {
    if a != [] {
      assert (a + b)[1..] == a[1..] + b;
      RemoveEmptyAppend(a[1..], b);
    } else {
      assert a + b == b;
    }
  }

  function Split(s: string, separators: seq<string>): seq<string>
  {
    RemoveEmpty(Pieces(s, separators))
  }

  /** The concatenation of a list of strings. */
  function Concat(ps: seq<string>): string
  {
    if ps == [] then "" else ps[0] + Concat(ps[1..])
  }

  /** Dropping empty pieces does not change the text they make up. */
  lemma {:induction false} ConcatRemoveEmpty(ps: seq<string>)
    ensures Concat(RemoveEmpty(ps)) == Concat(ps)
  {
    if ps != [] {
      ConcatRemoveEmpty(ps[1..]);
      if ps[0] != "" {
        var r := [ps[0]] + RemoveEmpty(ps[1..]);
        assert RemoveEmpty(ps) == r;
        assert r[0] == ps[0] && r[1..] == RemoveEmpty(ps[1..]);
      } else {
        assert RemoveEmpty(ps) == RemoveEmpty(ps[1..]);
        assert Concat(ps) == ps[0] + Concat(ps[1..]) == Concat(ps[1..]);
      }
    }
  }

  /** When no separator occurs at any position of `k` (reading on into `rest`),
      `k` becomes the beginning of the first piece. */
  lemma {:induction false} PiecesOfPlainPrefix(k: string, rest: string, separators: seq<string>)
    requires forall i :: 0 <= i < |k| ==> SeparatorAt((k + rest)[i..], separators) == 0
    ensures Pieces(k + rest, separators) ==
      [k + Pieces(rest, separators)[0]] + Pieces(rest, separators)[1..]
  {
    if k == [] {
      assert k + rest == rest;
      var ps := Pieces(rest, separators);
      assert k + ps[0] == ps[0];
      assert ps == [ps[0]] + ps[1..];
    } else {
      var s := k + rest;
      assert s[0..] == s;
      assert s[1..] == k[1..] + rest;
      forall i | 0 <= i < |k[1..]|
        ensures SeparatorAt((k[1..] + rest)[i..], separators) == 0
      {
        assert (k[1..] + rest)[i..] == s[i + 1..];
      }
      PiecesOfPlainPrefix(k[1..], rest, separators);
      assert [s[0]] + (k[1..] + Pieces(rest, separators)[0]) == k + Pieces(rest, separators)[0];
    }
  }
}
