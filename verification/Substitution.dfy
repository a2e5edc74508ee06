/** Prefix substitution, its round trip and its composition along a chain of assignments. */
module Substitution {
  import opened Wrappers
  import opened PathAlgebra
  import opened AccessPaths

  function Substitute(path: Path, prefix: Path, newPrefix: Path): Option<Path> {
    match Match(path, prefix)
    case Some(suffix) => Some(Concat(newPrefix, suffix))
    case None => None
  }

  /** `substitute_prefix`. */
  method SubstitutePrefix(path: Path, prefix: Path, newPrefix: Path) returns (r: Option<Path>)
    requires Normal(path) && Normal(prefix) && Normal(newPrefix)
    ensures r == Substitute(path, prefix, newPrefix)
    ensures r.Some? <==> Match(path, prefix).Some?
    ensures r.Some? ==> Normal(r.value)
    ensures r.Some? ==> exists s: Path ::
      Normal(s) && path == Concat(prefix, s) && r.value == Concat(newPrefix, s)
  {
    var suffix := MatchPrefix(path, prefix);
    match suffix {
      case None => r := None;
      case Some(s) =>
        var joined := PrependOnto(newPrefix, s);
        r := Some(joined);
    }
  }

  /** `substitute_prefix_with_nonempty_suffix`. */
  method SubstitutePrefixWithNonemptySuffix(path: Path, prefix: Path, newPrefix: Path)
    returns (r: Option<Path>)
    requires Normal(path) && Normal(prefix) && Normal(newPrefix)
    ensures r == if path == prefix then None else Substitute(path, prefix, newPrefix)
    ensures r.Some? <==> path != prefix && Match(path, prefix).Some?
  {
    var suffix := MatchPrefix(path, prefix);
    if suffix.Some? && suffix.value != [] {
      var joined := PrependOnto(newPrefix, suffix.value);
      r := Some(joined);
    } else {
      r := None;
    }
    ConcatMonoid(prefix, [], []);
    MatchSolutions(path, prefix, []);
  }

  /**
   The junction forgets part of the suffix: its head cancels the prefix's trailing offset, or it
   disappears into a trailing `#value`.
   */
  predicate Loses(prefix: Path, suffix: Path) {
    Cancels(prefix, suffix) || (EndsInValue(prefix) && StartsElastic(suffix))
  }

  /** What matching a composition against its own left part gives back. */
  lemma MatchAfterConcat(p: Path, s: Path)
    requires Normal(p) && Normal(s)
    ensures Match(Concat(p, s), p) ==
      if Cancels(p, s) then None
      else if EndsInValue(p) && StartsElastic(s) then Some(s[1..])
      else Some(s)
  {
    var whole := Concat(p, s);
    ConcatOfNormal(p, s);
    MatchSolutions(whole, p, s);
    if Cancels(p, s) {
      CancellingExcludesMatch(whole, p, s);
    } else if EndsInValue(p) && StartsElastic(s) {
      JoinIsConcat(p, s);
      assert whole == p + s[1..];
      assert whole[|p|..] == s[1..] && whole[|p| - 1] == Value;
    }
  }

  lemma SuffixOfValuePrefix(path: Path, prefix: Path)
    requires Normal(path) && Normal(prefix) && EndsInValue(prefix)
    requires Match(path, prefix).Some?
    ensures !StartsElastic(Match(path, prefix).value)
  {
  }

  /** After a trailing offset, the head shows in the length or in the segment that ends the prefix. */
  lemma DroppedAfterOffset(p: Path, s: Path)
    requires EndsInOffset(p) && StartsElastic(s) && s[0] != Offset(0) && (|s| > 1 ==> !Elastic(s[1]))
    ensures Join(p, s) != Join(p, s[1..])
  {
    var rest := s[1..];
    assert Join(p, rest) == p + rest && (p + rest)[|p| - 1] == Last(p);
    if s[0].Offset? {
      var sum := WrapAdd(Last(p).k, s[0].k);
      assert sum != Last(p).k;
      if sum != 0 {
        assert Join(p, s)[|p| - 1] == Offset(sum);
      } else {
        assert |Join(p, s)| == |p| - 1 + |rest|;
      }
    } else {
      assert Join(p, s)[|p| - 1] == Value;
    }
  }

  lemma DroppedElsewhere(p: Path, s: Path)
    requires !EndsInOffset(p) && StartsElastic(s) && (|s| > 1 ==> !Elastic(s[1]))
    ensures Join(p, s) == Join(p, s[1..]) <==> EndsInValue(p)
  {
    assert Join(p, s[1..]) == p + s[1..];
    if !EndsInValue(p) {
      assert |Join(p, s)| == |p| + |s|;
    }
  }

  /** Dropping an elastic head changes what a prefix composes to, unless the prefix ends in `#value`. */
  lemma DroppedHeadShows(p: Path, s: Path)
    requires Normal(p) && Normal(s) && StartsElastic(s)
    ensures Concat(p, s) == Concat(p, s[1..]) <==> EndsInValue(p)
  {
    assert s[0] != Offset(0) && (|s| > 1 ==> !Elastic(s[1]));
    hide Join, Concat, Normal;
    NormalSlice(s, 1, |s|);
    JoinIsConcat(p, s);
    JoinIsConcat(p, s[1..]);
    if EndsInOffset(p) {
      DroppedAfterOffset(p, s);
    } else {
      DroppedElsewhere(p, s);
    }
  }

  /**
   Substituting a prefix and then substituting back returns the path exactly when the junction
   with the new prefix loses nothing. An offset that a following `#value` swallows is no loss:
   the prefix still matches there.
   */
  lemma SubstituteRoundTrip(path: Path, prefix: Path, newPrefix: Path)
    requires Normal(path) && Normal(prefix) && Normal(newPrefix)
    requires Match(path, prefix).Some?
    ensures var forward := Substitute(path, prefix, newPrefix).value;
      Substitute(forward, newPrefix, prefix) == Some(path)
      <==> !Loses(newPrefix, Match(path, prefix).value)
  {
    var s := Match(path, prefix).value;
    MatchNormal(path, prefix);
    MatchSolutions(path, prefix, s);
    MatchAfterConcat(newPrefix, s);
    if EndsInValue(newPrefix) && StartsElastic(s) {
      DroppedHeadShows(prefix, s);
      if EndsInValue(prefix) {
        SuffixOfValuePrefix(path, prefix);
      }
    }
  }

  /**
   Substituting along a chain of two assignments is substituting once, exactly when the middle
   junction loses nothing or the last prefix would absorb what it lost.
   */
  lemma SubstituteComposes(path: Path, a: Path, b: Path, c: Path)
    requires Normal(path) && Normal(a) && Normal(b) && Normal(c)
    requires Match(path, a).Some?
    ensures var s := Match(path, a).value;
      Substitute(Substitute(path, a, b).value, b, c) == Substitute(path, a, c)
      <==> !Loses(b, s) || (EndsInValue(b) && EndsInValue(c))
  {
    var s := Match(path, a).value;
    MatchNormal(path, a);
    MatchAfterConcat(b, s);
    if EndsInValue(b) && StartsElastic(s) {
      DroppedHeadShows(c, s);
    }
  }

  /** A zero sum at the junction breaks the round trip: `.[8]` to `.x.[3]` has no way back from `.x`. */
  lemma RoundTripCounterexample()
    ensures var path, prefix, newPrefix := [Offset(8)], [Offset(11)], [Field("x"), Offset(3)];
      && Substitute(path, prefix, newPrefix) == Some([Field("x")])
      && Substitute([Field("x")], newPrefix, prefix) == None
  {
    var path: Path, prefix: Path, newPrefix: Path := [Offset(8)], [Offset(11)], [Field("x"), Offset(3)];
    assert Init(prefix) == [] && path[|prefix|..] == [] && WrapSub(8, 11) == -3;
    assert MatchSplit(path, prefix) == Some(Split(Some(-3), []));
    assert Build(Split(Some(-3), [])) == [Offset(-3)];
    JoinIsConcat(newPrefix, [Offset(-3)]);
    assert Join(newPrefix, [Offset(-3)]) == [Field("x")];
  }
}
