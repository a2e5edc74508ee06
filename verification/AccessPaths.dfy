/**
 Access paths as the index uses them: composition at the junction, prefix matching with
 offset arithmetic, prefix substitution, and the join keys that spell a match out.

 Every path a caller can hold is normal; that is the type invariant of `Path` in the program
 and the precondition `Normal` here.
 */
module AccessPaths {
  import opened Wrappers
  import opened PathAlgebra

  // ------------------------------------------------------------------------
  // Composition at the junction
  // ------------------------------------------------------------------------

  /** What the two ends that meet combine to. */
  function Join(p: Path, q: Path): Path {
    if p == [] || q == [] then p + q
    else if Last(p).Offset? && q[0].Offset? then
      var sum := WrapAdd(Last(p).k, q[0].k);
      if sum == 0 then Init(p) + q[1..] else Init(p) + [Offset(sum)] + q[1..]
    else if Last(p).Offset? && q[0].Value? then Init(p) + q
    else if Last(p).Value? && Elastic(q[0]) then p + q[1..]
    else p + q
  }

  lemma JoinIsConcat(p: Path, q: Path)
    requires Normal(p) && Normal(q)
    ensures Join(p, q) == Concat(p, q)
  {
    if p == [] {
      assert p + q == q;
      NormalFormOfNormal(q);
    } else if q == [] {
      assert p + q == p;
    } else {
      hide Join, Push;
      JoinIsPush(p, q);
      PushNormal(p, q[0]);
      NormalJunction(p, q);
      assert q == [q[0]] + q[1..];
      PushAllAppends(Push(p, q[0]), q[1..]);
    }
  }

  /** Only the segment that meets the prefix is pushed; the rest of the suffix follows as it is. */
  lemma JoinIsPush(p: Path, q: Path)
    requires Normal(p) && Normal(q) && p != [] && q != []
    ensures Join(p, q) == Push(p, q[0]) + q[1..]
  {
    var rest := q[1..];
    assert q == [q[0]] + rest && q[0] != Offset(0);
    assert p == Init(p) + [Last(p)];
    assert EndsInOffset(p) && |p| > 1 ==> !Elastic(p[|p| - 2]);
    hide Normal;
    match q[0]
    case Offset(k) => assert p + [q[0]] + rest == p + q;
    case Value => assert Init(p) + [Value] + rest == Init(p) + q && p + [Value] + rest == p + q;
    case Field(_) => assert p + [q[0]] + rest == p + q;
    case Deref => assert p + [q[0]] + rest == p + q;
  }

  /** Pushing the first segment of a normal path leaves an end that its second segment may follow. */
  lemma NormalJunction(p: Path, q: Path)
    requires Normal(p) && Normal(q) && q != []
    ensures Normal(Push(p, q[0]) + q[1..])
  {
    PushNormal(p, q[0]);
    NormalSlice(q, 1, |q|);
    if !Elastic(q[0]) {
      assert Last(Push(p, q[0])) == q[0];
    } else if |q| > 1 {
      assert !Elastic(q[1]);
    }
    hide Push;
    NormalMeets(Push(p, q[0]), q[1..]);
  }

  lemma NormalMeets(a: Path, b: Path)
    requires Normal(a) && Normal(b) && (a != [] && b != [] ==> !Elastic(Last(a)) || !Elastic(b[0]))
    ensures Normal(a + b)
  {
    forall i | 0 < i < |a + b|
      ensures !(Elastic((a + b)[i - 1]) && Elastic((a + b)[i]))
    {
      if i < |a| {
        assert (a + b)[i - 1] == a[i - 1] && (a + b)[i] == a[i];
      } else if i > |a| {
        assert (a + b)[i - 1] == b[i - 1 - |a|] && (a + b)[i] == b[i - |a|];
      }
    }
  }

  /** How far into the prefix the junction leaves it alone, and what follows from there on. */
  function Junction(p: Path, q: Path): (r: (nat, Path))
    requires p != []
    ensures r.0 <= |p|
    ensures Join(p, q) == p[..r.0] + r.1
  {
    if q == [] then (|p|, q)
    else if Last(p).Offset? && q[0].Offset? then
      var sum := WrapAdd(Last(p).k, q[0].k);
      (|p| - 1, if sum == 0 then q[1..] else [Offset(sum)] + q[1..])
    else if Last(p).Offset? && q[0].Value? then (|p| - 1, q)
    else if Last(p).Value? && Elastic(q[0]) then (|p|, q[1..])
    else (|p|, q)
  }

  /** `prepend_onto`: rewrites the junction only, then conses the rest of the prefix back on. */
  method PrependOnto(newPrefix: Path, suffix: Path) returns (acc: Path)
    requires Normal(newPrefix) && Normal(suffix)
    ensures acc == Concat(newPrefix, suffix)
    ensures acc == NormalForm(newPrefix + suffix)
    ensures Normal(acc)
  {
    hide *;
    JoinIsConcat(newPrefix, suffix);
    ConcatOfNormal(newPrefix, suffix);
    if newPrefix == [] {
      ConcatMonoid(suffix, newPrefix, suffix);
      return suffix;
    }
    var junction := Junction(newPrefix, suffix);
    acc := junction.1;
    var i := junction.0;
    while i > 0
      invariant 0 <= i <= junction.0
      invariant acc == newPrefix[i..junction.0] + junction.1
    {
      i := i - 1;
      acc := [newPrefix[i]] + acc;
    }
  }

  // ------------------------------------------------------------------------
  // Prefix matching
  // ------------------------------------------------------------------------

  /** The suffix of a match, unbuilt: an optional nonzero offset in front of a tail of the path. */
  datatype Split = Split(adjust: Option<i64>, rest: Path)

  function MatchSplit(path: Path, prefix: Path): Option<Split> {
    if prefix == [] then Some(Split(None, path))
    else if !(Init(prefix) <= path) || |path| < |prefix| then None
    else
      var a, p := path[|prefix| - 1], Last(prefix);
      var tail := path[|prefix|..];
      if a.Offset? && p.Offset? && a.k != p.k then Some(Split(Some(WrapSub(a.k, p.k)), tail))
      else if a.Value? && p.Offset? then Some(Split(None, path[|prefix| - 1..]))
      else if a == p then Some(Split(None, tail))
      else None
  }

  function Build(s: Split): Path {
    match s.adjust
    case Some(k) => [Offset(k)] + s.rest
    case None => s.rest
  }

  /** The suffix `match_prefix` returns. */
  function Match(path: Path, prefix: Path): Option<Path> {
    match MatchSplit(path, prefix)
    case Some(s) => Some(Build(s))
    case None => None
  }

  /** `match_prefix_split`: walks both lists head by head up to the prefix's last component. */
  method MatchPrefixSplit(path: Path, prefix: Path) returns (r: Option<Split>)
    ensures r == MatchSplit(path, prefix)
    ensures r.Some? ==> Match(path, prefix) == Some(Build(r.value))
    ensures r.Some? ==> |r.value.rest| <= |path| && r.value.rest == path[|path| - |r.value.rest|..]
    ensures r.Some? && r.value.adjust.Some? ==> r.value.adjust.value != 0
  {
    var pathSeq, prefixSeq := path, prefix;
    if prefixSeq == [] {
      return Some(Split(None, pathSeq));
    }
    ghost var i := 0;
    while prefixSeq[1..] != []
      invariant 0 <= i < |prefix|
      invariant prefixSeq == prefix[i..]
      invariant i <= |path| && pathSeq == path[i..]
      invariant prefix[..i] == path[..i]
      decreases |prefixSeq|
    {
      if pathSeq == [] || prefixSeq[0] != pathSeq[0] {
        assert Init(prefix)[i] == prefixSeq[0];
        return None;
      }
      assert prefix[..i + 1] == prefix[..i] + [prefix[i]] == path[..i + 1];
      prefixSeq, pathSeq := prefixSeq[1..], pathSeq[1..];
      i := i + 1;
    }
    assert i == |prefix| - 1;
    if pathSeq == [] {
      return None;
    }
    var a, p := pathSeq[0], prefixSeq[0];
    if a.Offset? && p.Offset? && a.k != p.k {
      r := Some(Split(Some(WrapSub(a.k, p.k)), pathSeq[1..]));
    } else if a.Value? && p.Offset? {
      r := Some(Split(None, pathSeq));
    } else if a == p {
      r := Some(Split(None, pathSeq[1..]));
    } else {
      r := None;
    }
  }

  /** The suffix starts with the offset that cancels the prefix's trailing one. */
  predicate Cancels(prefix: Path, t: Path) {
    && EndsInOffset(prefix)
    && t != [] && t[0].Offset?
    && WrapAdd(Last(prefix).k, t[0].k) == 0
  }

  /** Every way a normal suffix can solve `path == prefix . t`, read off the matcher's answer. */
  ghost predicate Solution(path: Path, prefix: Path, t: Path) {
    || Match(path, prefix) == Some(t)
    || (EndsInValue(prefix) && StartsElastic(t) && Match(path, prefix) == Some(t[1..]))
    || (Cancels(prefix, t) && path == Init(prefix) + t[1..])
  }

  lemma MatchNormal(path: Path, prefix: Path)
    requires Normal(path) && Normal(prefix)
    requires Match(path, prefix).Some?
    ensures Normal(Match(path, prefix).value)
  {
    var s := MatchSplit(path, prefix).value;
    if prefix != [] {
      NormalSlice(path, |prefix|, |path|);
      NormalSlice(path, |prefix| - 1, |path|);
      if s.adjust.Some? {
        assert s.rest != [] ==> !Elastic(s.rest[0]);
        assert Build(s) == [Offset(s.adjust.value)] + s.rest;
      }
    }
  }

  lemma JoinSameInit(prefix: Path, t: Path, path: Path)
    requires prefix != [] && Join(prefix, t) == path
    ensures Init(prefix) <= path
  {
  }

  lemma OffsetJoinIsSolution(path: Path, prefix: Path, t: Path)
    requires Normal(path) && Normal(prefix) && Normal(t)
    requires EndsInOffset(prefix) && Join(prefix, t) == path
    ensures Solution(path, prefix, t)
  {
    var n := |prefix| - 1;
    var m := Last(prefix).k;
    JoinSameInit(prefix, t, path);
    if t == [] {
      assert path == prefix;
    } else if t[0].Offset? {
      var sum := WrapAdd(m, t[0].k);
      if sum != 0 {
        assert path[n] == Offset(sum) && path[n + 1..] == t[1..];
        assert WrapSub(sum, m) == t[0].k;
        assert t == [t[0]] + t[1..];
      }
    } else if t[0].Value? {
      assert path[n..] == t;
    } else {
      assert path[|prefix|..] == t;
    }
  }

  lemma AdjustedOffsetJoins(prefix: Path, n: i64, tail: Path)
    requires EndsInOffset(prefix) && n != 0
    ensures Join(prefix, [Offset(WrapSub(n, Last(prefix).k))] + tail) == Init(prefix) + [Offset(n)] + tail
  {
  }

  lemma CancellingJoins(prefix: Path, t: Path)
    requires Cancels(prefix, t)
    ensures Join(prefix, t) == Init(prefix) + t[1..]
  {
  }

  /** Ends that do not combine, or a `#value` that swallows the offset before it. */
  lemma PlainJoins(prefix: Path, t: Path)
    requires EndsInOffset(prefix)
    ensures (t != [] ==> !Elastic(t[0])) ==> Join(prefix, t) == prefix + t
    ensures t != [] && t[0].Value? ==> Join(prefix, t) == Init(prefix) + t
  {
  }

  lemma OffsetMatchJoins(path: Path, prefix: Path, t: Path)
    requires Normal(path) && EndsInOffset(prefix) && Match(path, prefix) == Some(t)
    ensures Join(prefix, t) == path
  {
    hide Join;
    var n := |prefix| - 1;
    assert path == Init(prefix) + [path[n]] + path[n + 1..];
    PlainJoins(prefix, t);
    if path[n].Offset? {
      assert path[n] != Offset(0);
      AdjustedOffsetJoins(prefix, path[n].k, path[n + 1..]);
      if path[n] == Last(prefix) {
        assert path == prefix + t;
      }
    } else {
      assert t == path[n..] == [path[n]] + path[n + 1..];
    }
  }

  lemma OffsetSolutionJoins(path: Path, prefix: Path, t: Path)
    requires Normal(path) && Normal(prefix) && Normal(t)
    requires EndsInOffset(prefix) && Solution(path, prefix, t)
    ensures Join(prefix, t) == path
  {
    hide Join, Normal, Match;
    if Cancels(prefix, t) && path == Init(prefix) + t[1..] {
      CancellingJoins(prefix, t);
    } else {
      OffsetMatchJoins(path, prefix, t);
    }
  }

  lemma SolutionsOther(path: Path, prefix: Path, t: Path)
    requires Normal(path) && Normal(prefix) && Normal(t)
    requires prefix != [] && !EndsInOffset(prefix)
    ensures Join(prefix, t) == path <==> Solution(path, prefix, t)
  {
  }

  /** The matcher's answer determines all normal solutions of `path == prefix . t`, and no others. */
  lemma MatchSolutions(path: Path, prefix: Path, t: Path)
    requires Normal(path) && Normal(prefix) && Normal(t)
    ensures Concat(prefix, t) == path <==> Solution(path, prefix, t)
  {
    JoinIsConcat(prefix, t);
    if prefix == [] {
      assert prefix + t == t;
    } else if EndsInOffset(prefix) {
      if Join(prefix, t) == path {
        OffsetJoinIsSolution(path, prefix, t);
      }
      if Solution(path, prefix, t) {
        OffsetSolutionJoins(path, prefix, t);
      }
    } else {
      SolutionsOther(path, prefix, t);
    }
  }

  /**
   `match_prefix`: when it answers, the answer is normal, solves the equation, and is the only
   solution, except that after a trailing `#value` one more elastic segment may be absorbed, so
   there it is the shortest. When it does not answer, every solution cancels the prefix's offset.
   */
  method MatchPrefix(path: Path, prefix: Path) returns (r: Option<Path>)
    requires Normal(path) && Normal(prefix)
    ensures r == Match(path, prefix)
    ensures r.Some? ==> Normal(r.value) && Concat(prefix, r.value) == path
    ensures forall t: Path :: Normal(t) && Concat(prefix, t) == path ==>
      match r
      case None => Cancels(prefix, t)
      case Some(s) => t == s || (EndsInValue(prefix) && StartsElastic(t) && t[1..] == s)
  {
    var split := MatchPrefixSplit(path, prefix);
    match split {
      case None => r := None;
      case Some(s) => r := Some(Build(s));
    }
    if r.Some? {
      MatchNormal(path, prefix);
      MatchSolutions(path, prefix, r.value);
    }
    forall t: Path | Normal(t) && Concat(prefix, t) == path
      ensures
        match r
        case None => Cancels(prefix, t)
        case Some(s) => t == s || (EndsInValue(prefix) && StartsElastic(t) && t[1..] == s)
    {
      MatchSolutions(path, prefix, t);
      if r.Some? && Cancels(prefix, t) {
        CancellingExcludesMatch(path, prefix, t);
      }
    }
  }

  lemma CancellingExcludesMatch(path: Path, prefix: Path, t: Path)
    requires Normal(path) && Normal(prefix) && Normal(t)
    requires Cancels(prefix, t) && Concat(prefix, t) == path
    ensures Match(path, prefix) == None
  {
    JoinIsConcat(prefix, t);
    assert path == Init(prefix) + t[1..];
    if |path| >= |prefix| {
      assert path[|prefix| - 1] == t[1];
    }
  }

  // ------------------------------------------------------------------------
  // The total matcher of the algebra
  // ------------------------------------------------------------------------

  /** `strip_prefix`: like the matcher, but an offset prefix is rebased against anything. */
  function StripPrefix(path: Path, prefix: Path): Option<Path> {
    if prefix == [] then Some(path)
    else if !(Init(prefix) <= path) then None
    else
      var rest := path[|prefix| - 1..];
      match Last(prefix)
      case Offset(m) =>
        var t := Concat(NormalForm([Offset(WrapNeg(m))]), rest);
        if Concat(prefix, t) == path then Some(t) else None
      case seg =>
        if rest != [] && rest[0] == seg then Some(rest[1..]) else None
  }

  lemma CancelOffset(prefix: Path, back: Path)
    requires Normal(prefix) && EndsInOffset(prefix)
    requires back == [Offset(WrapNeg(Last(prefix).k))]
    ensures Concat(prefix, back) == Init(prefix)
  {
    JoinIsConcat(prefix, back);
  }

  lemma RebasedSuffix(path: Path, prefix: Path)
    requires Normal(path) && Normal(prefix) && EndsInOffset(prefix) && Init(prefix) <= path
    ensures var t := Concat(NormalForm([Offset(WrapNeg(Last(prefix).k))]), path[|prefix| - 1..]);
            Normal(t) && Concat(prefix, t) == path
  {
    var back: Path := [Offset(WrapNeg(Last(prefix).k))];
    var rest := path[|prefix| - 1..];
    assert Normal(back);
    hide Normal, Concat, NormalForm;
    NormalFormOfNormal(back);
    NormalSlice(path, |prefix| - 1, |path|);
    ConcatOfNormal(back, rest);
    ConcatMonoid(prefix, back, rest);
    CancelOffset(prefix, back);
    assert path[..|prefix| - 1] == Init(prefix);
    ConcatSplit(path, |prefix| - 1);
  }

  /** A normal path is the concatenation of its parts. */
  lemma ConcatSplit(path: Path, n: nat)
    requires Normal(path) && n <= |path|
    ensures Concat(path[..n], path[n..]) == path
  {
    hide Normal;
    assert path[..n] + path[n..] == path;
    PushAllAppends(path[..n], path[n..]);
  }

  lemma StripOffset(path: Path, prefix: Path, t: Path)
    requires Normal(path) && Normal(prefix) && Normal(t) && EndsInOffset(prefix)
    ensures var r := StripPrefix(path, prefix);
      && (r.Some? ==> Normal(r.value) && Concat(prefix, r.value) == path)
      && (Concat(prefix, t) == path ==> r.Some? && |r.value| <= |t|)
  {
    hide Concat, NormalForm, Normal, Join;
    if Init(prefix) <= path {
      RebasedSuffix(path, prefix);
      if Concat(prefix, t) == path {
        OffsetSolutionsUnique(path, prefix, t, StripPrefix(path, prefix).value);
      }
    } else if Concat(prefix, t) == path {
      JoinIsConcat(prefix, t);
      JoinSameInit(prefix, t, path);
    }
  }

  lemma StripOther(path: Path, prefix: Path, t: Path)
    requires Normal(path) && Normal(prefix) && Normal(t) && prefix != [] && !EndsInOffset(prefix)
    ensures StripPrefix(path, prefix) == Match(path, prefix)
    ensures Match(path, prefix).Some? ==>
      Normal(Match(path, prefix).value) && Concat(prefix, Match(path, prefix).value) == path
    ensures Concat(prefix, t) == path ==> Match(path, prefix).Some? && |Match(path, prefix).value| <= |t|
  {
    hide Concat, NormalForm, Normal;
    MatchSolutions(path, prefix, t);
    if Match(path, prefix).Some? {
      MatchNormal(path, prefix);
      MatchSolutions(path, prefix, Match(path, prefix).value);
    }
  }

  /** `strip_prefix` answers exactly when there is a solution, with a shortest one. */
  lemma StripPrefixComplete(path: Path, prefix: Path, t: Path)
    requires Normal(path) && Normal(prefix) && Normal(t)
    ensures var r := StripPrefix(path, prefix);
      && (r.Some? ==> Normal(r.value) && Concat(prefix, r.value) == path)
      && (Concat(prefix, t) == path ==> r.Some? && |r.value| <= |t|)
  {
    hide Concat, Normal, Match;
    if prefix == [] {
      ConcatMonoid(path, path, path);
      ConcatMonoid(t, t, t);
    } else if EndsInOffset(prefix) {
      StripOffset(path, prefix, t);
    } else {
      StripOther(path, prefix, t);
    }
  }

  lemma OffsetSolutionsUnique(path: Path, prefix: Path, t: Path, u: Path)
    requires Normal(path) && Normal(prefix) && Normal(t) && Normal(u)
    requires EndsInOffset(prefix)
    requires Concat(prefix, t) == path && Concat(prefix, u) == path
    ensures t == u
  {
    MatchSolutions(path, prefix, t);
    MatchSolutions(path, prefix, u);
    if Cancels(prefix, t) {
      CancellingExcludesMatch(path, prefix, t);
      assert t[1..] == path[|prefix| - 1..] == u[1..];
      assert t[0] == u[0];
      assert t == [t[0]] + t[1..] && u == [u[0]] + u[1..];
    } else if Cancels(prefix, u) {
      CancellingExcludesMatch(path, prefix, u);
    }
  }

  /** The matcher is a restriction of `strip_prefix`: it gives up only on cancelling suffixes. */
  lemma MatchRestrictsStrip(path: Path, prefix: Path)
    requires Normal(path) && Normal(prefix)
    ensures Match(path, prefix).Some? ==> StripPrefix(path, prefix) == Match(path, prefix)
    ensures Match(path, prefix).None? && StripPrefix(path, prefix).Some? ==>
              Cancels(prefix, StripPrefix(path, prefix).value)
  {
    if Match(path, prefix).Some? {
      var s := Match(path, prefix).value;
      MatchNormal(path, prefix);
      MatchSolutions(path, prefix, s);
      StripPrefixComplete(path, prefix, s);
      if EndsInOffset(prefix) {
        OffsetSolutionsUnique(path, prefix, s, StripPrefix(path, prefix).value);
      }
    } else if StripPrefix(path, prefix).Some? {
      StripPrefixComplete(path, prefix, []);
      MatchSolutions(path, prefix, StripPrefix(path, prefix).value);
    }
  }
}
