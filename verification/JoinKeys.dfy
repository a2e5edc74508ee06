/**
 The join keys of a path: every component-wise split, and the splits at an elastic component
 that a prefix ending in an offset can match by arithmetic. Together they spell the matcher out
 as equality joins.
 */
module JoinKeys {
  import opened Wrappers
  import opened PathAlgebra
  import opened AccessPaths

  datatype Key = Key(key: Path, rest: Path)

  /** `prefix_keys`: every component-wise split, by ascending key length. */
  method PrefixKeys(path: Path) returns (out: seq<Key>)
    requires Normal(path)
    ensures out == ExactKeys(path)
    ensures |out| == |path| + 1 && forall i :: 0 <= i <= |path| ==> out[i] == Key(path[..i], path[i..])
  {
    out := [];
    var rest := path;
    for k := 0 to |path| + 1
      invariant out == seq(k, i requires 0 <= i < k => Key(path[..i], path[i..]))
      invariant rest == if k <= |path| then path[k..] else []
    {
      NormalSlice(path, 0, k);
      var key := Normalize(path[..k]);
      out := out + [Key(key, rest)];
      rest := if rest == [] then [] else rest[1..];
    }
  }

  function ExactKeys(path: Path): seq<Key> {
    seq(|path| + 1, i requires 0 <= i < |path| + 1 => Key(path[..i], path[i..]))
  }

  /** `prefix_keys_wild`: the splits in front of an offset or `#value`, by ascending key length. */
  method PrefixKeysWild(path: Path) returns (out: seq<Key>)
    requires Normal(path)
    ensures out == WildKeys(path, |path|)
    ensures forall k: Key :: k in out <==>
      |k.key| < |path| && k == Key(path[..|k.key|], path[|k.key|..]) && Elastic(path[|k.key|])
    ensures forall i, j :: 0 <= i < j < |out| ==> |out[i].key| < |out[j].key|
  {
    out := [];
    var rest := path;
    for k := 0 to |path|
      invariant out == WildKeys(path, k)
      invariant rest == path[k..]
    {
      if Elastic(path[k]) {
        NormalSlice(path, 0, k);
        var key := Normalize(path[..k]);
        out := out + [Key(key, rest)];
      }
      rest := rest[1..];
    }
    WildKeysAre(path);
  }

  lemma WildKeysAre(path: Path)
    ensures forall k: Key :: k in WildKeys(path, |path|) <==>
      |k.key| < |path| && k == Key(path[..|k.key|], path[|k.key|..]) && Elastic(path[|k.key|])
    ensures forall i, j :: 0 <= i < j < |WildKeys(path, |path|)| ==>
      |WildKeys(path, |path|)[i].key| < |WildKeys(path, |path|)[j].key|
  {
    hide WildKeys;
    var wild := WildKeys(path, |path|);
    forall k: Key | k in wild
      ensures |k.key| < |path| && k == Key(path[..|k.key|], path[|k.key|..]) && Elastic(path[|k.key|])
    {
      var i :| 0 <= i < |wild| && wild[i] == k;
      WildKeysSound(path, |path|, i);
    }
    forall k: Key | |k.key| < |path| && k == Key(path[..|k.key|], path[|k.key|..]) && Elastic(path[|k.key|])
      ensures k in wild
    {
      var i := WildKeysComplete(path, |path|, |k.key|);
    }
    forall i, j | 0 <= i < j < |wild|
      ensures |wild[i].key| < |wild[j].key|
    {
      WildKeysDistinct(path, |path|, i, j);
    }
  }

  function WildKeys(path: Path, n: nat): (r: seq<Key>)
    requires n <= |path|
  {
    if n == 0 then []
    else if Elastic(path[n - 1]) then WildKeys(path, n - 1) + [Key(path[..n - 1], path[n - 1..])]
    else WildKeys(path, n - 1)
  }

  /** `wild_rest`: what a wild split's rest leaves of a prefix `key.[m]`. */
  function WildRest(rest: Path, m: i64): Option<(i64, Path)> {
    if rest == [] then None
    else match rest[0]
      case Offset(n) => if n != m then Some((WrapSub(n, m), rest[1..])) else None
      case Value => Some((0, rest))
      case _ => None
  }

  /** `split_trailing_offset`. */
  function SplitTrailingOffset(p: Path): Option<(Path, i64)> {
    if EndsInOffset(p) then Some((Init(p), Last(p).k)) else None
  }

  /** The suffix a wild match stands for. */
  function Rebuild(adjusted: (i64, Path)): Path {
    NormalForm([Offset(adjusted.0)] + adjusted.1)
  }

  /** One way to find a prefix among the join keys: an exact key, or a wild one, by position. */
  datatype Derivation = Exact(at: nat) | Wild(at: nat)

  /** The join that `d` names finds `prefix` among the keys of `path` and yields the suffix `s`. */
  ghost predicate Derives(path: Path, prefix: Path, d: Derivation, s: Path) {
    match d
    case Exact(i) =>
      i < |ExactKeys(path)| && ExactKeys(path)[i] == Key(prefix, s)
    case Wild(i) =>
      var wild := WildKeys(path, |path|);
      && i < |wild|
      && SplitTrailingOffset(prefix).Some?
      && SplitTrailingOffset(prefix).value.0 == wild[i].key
      && WildRest(wild[i].rest, SplitTrailingOffset(prefix).value.1).Some?
      && s == Rebuild(WildRest(wild[i].rest, SplitTrailingOffset(prefix).value.1).value)
  }

  lemma {:induction false} WildKeysSound(path: Path, n: nat, i: nat)
    requires n <= |path| && i < |WildKeys(path, n)|
    ensures var k := WildKeys(path, n)[i];
      |k.key| < n && k == Key(path[..|k.key|], path[|k.key|..]) && Elastic(path[|k.key|])
  {
    if i < |WildKeys(path, n - 1)| {
      WildKeysSound(path, n - 1, i);
    }
  }

  lemma {:induction false} WildKeysDistinct(path: Path, n: nat, i: nat, j: nat)
    requires n <= |path| && i < j < |WildKeys(path, n)|
    ensures |WildKeys(path, n)[i].key| < |WildKeys(path, n)[j].key|
  {
    if j < |WildKeys(path, n - 1)| {
      WildKeysDistinct(path, n - 1, i, j);
    } else {
      WildKeysSound(path, n - 1, i);
    }
  }

  lemma {:induction false} WildKeysComplete(path: Path, n: nat, k: nat) returns (i: nat)
    requires k < n <= |path| && Elastic(path[k])
    ensures i < |WildKeys(path, n)|
    ensures WildKeys(path, n)[i] == Key(path[..k], path[k..])
  {
    if k == n - 1 {
      i := |WildKeys(path, n - 1)|;
    } else {
      i := WildKeysComplete(path, n - 1, k);
    }
  }

  lemma RebuiltSuffix(path: Path, prefix: Path)
    requires Normal(path) && Normal(prefix) && EndsInOffset(prefix)
    requires Init(prefix) <= path && |path| >= |prefix|
    requires Elastic(path[|prefix| - 1]) && path[|prefix| - 1] != Last(prefix)
    ensures var w := WildRest(path[|prefix| - 1..], Last(prefix).k);
      w.Some? && Match(path, prefix) == Some(Rebuild(w.value))
  {
    var n := |prefix| - 1;
    var rest := path[n..];
    var w := WildRest(rest, Last(prefix).k).value;
    NormalSlice(path, n, |path|);
    NormalSlice(path, n + 1, |path|);
    if path[n].Offset? {
      var s := [Offset(w.0)] + w.1;
      assert rest[1..] == path[n + 1..];
      assert w.1 != [] ==> !Elastic(w.1[0]);
      assert Normal(s);
      NormalFormOfNormal(s);
    } else {
      assert ([Offset(0)] + rest)[1..] == rest;
      assert Push([], Offset(0)) == [];
      NormalFormOfNormal(rest);
    }
  }

  /** A match is found by some join. */
  lemma MatchHasDerivation(path: Path, prefix: Path) returns (d: Derivation)
    requires Normal(path) && Normal(prefix) && Match(path, prefix).Some?
    ensures Derives(path, prefix, d, Match(path, prefix).value)
  {
    var n := |prefix|;
    if prefix == [] || path[n - 1] == Last(prefix) {
      assert prefix == path[..n] by {
        if prefix != [] {
          assert Init(prefix) + [Last(prefix)] == prefix;
        }
      }
      d := Exact(n);
    } else {
      d := MatchHasWildKey(path, prefix);
    }
  }

  lemma MatchHasWildKey(path: Path, prefix: Path) returns (d: Derivation)
    requires Normal(path) && Normal(prefix) && EndsInOffset(prefix)
    requires Init(prefix) <= path && |path| >= |prefix|
    requires Elastic(path[|prefix| - 1]) && path[|prefix| - 1] != Last(prefix)
    ensures Match(path, prefix).Some? && Derives(path, prefix, d, Match(path, prefix).value)
  {
    hide WildRest, Rebuild, WildKeys, Match, Normal, Elastic;
    RebuiltSuffix(path, prefix);
    var i := WildKeysComplete(path, |path|, |prefix| - 1);
    assert path[..|prefix| - 1] == Init(prefix);
    d := Wild(i);
  }

  lemma WildDerivationShape(path: Path, prefix: Path, i: nat, s: Path)
    requires Normal(path) && Normal(prefix) && Derives(path, prefix, Wild(i), s)
    ensures EndsInOffset(prefix) && Init(prefix) <= path && |path| >= |prefix|
    ensures Elastic(path[|prefix| - 1]) && path[|prefix| - 1] != Last(prefix)
    ensures |WildKeys(path, |path|)[i].key| == |prefix| - 1
    ensures Match(path, prefix) == Some(s)
  {
    WildKeysSound(path, |path|, i);
    RebuiltSuffix(path, prefix);
  }

  /** Every join that finds the prefix yields the matcher's suffix. */
  lemma DerivationMatches(path: Path, prefix: Path, d: Derivation, s: Path)
    requires Normal(path) && Normal(prefix) && Derives(path, prefix, d, s)
    ensures Match(path, prefix) == Some(s)
  {
    match d
    case Exact(i) =>
      assert prefix == path[..i] && s == path[i..];
      if prefix != [] {
        assert Init(prefix) == path[..i - 1];
      }
    case Wild(i) =>
      WildDerivationShape(path, prefix, i, s);
  }

  lemma DerivationUnique(path: Path, prefix: Path, d: Derivation, e: Derivation, s: Path, t: Path)
    requires Normal(path) && Normal(prefix)
    requires Derives(path, prefix, d, s) && Derives(path, prefix, e, t)
    ensures d == e && s == t
  {
    DerivationMatches(path, prefix, d, s);
    DerivationMatches(path, prefix, e, t);
    if d.Exact? && e.Exact? {
      assert |path[..d.at]| == |path[..e.at]|;
    } else if d.Wild? && e.Wild? {
      WildDerivationShape(path, prefix, d.at, s);
      WildDerivationShape(path, prefix, e.at, t);
      if d.at < e.at {
        WildKeysDistinct(path, |path|, d.at, e.at);
      } else if e.at < d.at {
        WildKeysDistinct(path, |path|, e.at, d.at);
      }
    } else {
      var i := if d.Wild? then d.at else e.at;
      WildDerivationShape(path, prefix, i, s);
    }
  }

  /** The joins and the matcher agree, and a match is found by exactly one join. */
  lemma JoinsAgreeWithMatch(path: Path, prefix: Path, s: Path)
    requires Normal(path) && Normal(prefix)
    ensures Match(path, prefix) == Some(s) <==> exists d :: Derives(path, prefix, d, s)
    ensures forall d, e, t :: Derives(path, prefix, d, s) && Derives(path, prefix, e, t) ==> d == e && s == t
  {
    if Match(path, prefix) == Some(s) {
      var d := MatchHasDerivation(path, prefix);
    }
    forall d | Derives(path, prefix, d, s)
      ensures Match(path, prefix) == Some(s)
    {
      DerivationMatches(path, prefix, d, s);
    }
    forall d, e, t | Derives(path, prefix, d, s) && Derives(path, prefix, e, t)
      ensures d == e && s == t
    {
      DerivationUnique(path, prefix, d, e, s, t);
    }
  }
}
