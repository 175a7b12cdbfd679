/** The de-duplication and author filter both observer copies apply to the
    commits of one folder: a hash not seen before is recorded (even when its
    author is ignored), and only commits with a new hash and a relevant
    author survive. */
module Dedup {
  import opened Outcomes
  import opened Transport

  type Hash = Option<string>

  /** The ignore rule: no list ignores nobody, otherwise an exact,
      case-sensitive match with some entry. */
  predicate Ignored(ignore: Option<seq<string>>, author: string) {
    ignore.Some? && author in ignore.value
  }

  /** `ignore_author`, the loop over the configured names. */
  method IgnoreAuthor(ignore: Option<seq<string>>, author: string) returns (r: bool)
    ensures r <==> ignore.Some? && exists i :: 0 <= i < |ignore.value| && ignore.value[i] == author
    ensures r == Ignored(ignore, author)
  {
    if ignore.None? {
      return false;
    }
    var names := ignore.value;
    var i := 0;
    while i < |names|
      invariant 0 <= i <= |names|
      invariant forall j :: 0 <= j < i ==> names[j] != author
    {
      if author == names[i] {
        return true;
      }
      i := i + 1;
    }
    return false;
  }

  predicate NoDuplicates(s: seq<Hash>) {
    forall i, j :: 0 <= i < j < |s| ==> s[i] != s[j]
  }

  /** One pass over `cs` in input order, starting from the hashes already
      known: the grown hash list and the surviving commits, in input order.
      What the pass guarantees is stated by `SweepGuarantees`. */
  function Sweep(known: seq<Hash>, ignore: Option<seq<string>>, cs: seq<Commit>): (res: (seq<Hash>, seq<Commit>))
    ensures known <= res.0
    ensures |res.1| <= |cs|
    decreases |cs|
  {
    if |cs| == 0 then (known, [])
    else if cs[0].sha1 in known then Sweep(known, ignore, cs[1..])
    else
      var rest := Sweep(known + [cs[0].sha1], ignore, cs[1..]);
      if Ignored(ignore, cs[0].author) then rest else (rest.0, [cs[0]] + rest.1)
  }

  /** The known hashes grow by exactly the hashes of the input, ignored
      commits included, and stay free of repeats. */
  lemma {:induction false} SweepKnown(known: seq<Hash>, ignore: Option<seq<string>>, cs: seq<Commit>)
    ensures var res := Sweep(known, ignore, cs);
            && (forall h :: h in res.0 <==> h in known || h in Hashes(cs))
            && (NoDuplicates(known) ==> NoDuplicates(res.0))
    decreases |cs|
  {
    if |cs| > 0 {
      var x := cs[0];
      assert Hashes(cs) == [x.sha1] + Hashes(cs[1..]);
      if x.sha1 in known {
        SweepKnown(known, ignore, cs[1..]);
      } else {
        SweepKnown(known + [x.sha1], ignore, cs[1..]);
      }
    }
  }

  /** Every survivor comes from the input, had a new hash, is recorded now
      and has a relevant author. */
  lemma {:induction false} SweepSurvivors(known: seq<Hash>, ignore: Option<seq<string>>, cs: seq<Commit>)
    ensures var res := Sweep(known, ignore, cs);
            forall c :: c in res.1 ==> c in cs && c.sha1 !in known && c.sha1 in res.0 && !Ignored(ignore, c.author)
    decreases |cs|
  {
    if |cs| > 0 {
      var x := cs[0];
      assert cs == [x] + cs[1..];
      if x.sha1 in known {
        SweepSurvivors(known, ignore, cs[1..]);
      } else {
        var k1 := known + [x.sha1];
        SweepSurvivors(k1, ignore, cs[1..]);
        var rest := Sweep(k1, ignore, cs[1..]);
        assert k1 <= rest.0 && rest.0[|known|] == k1[|known|] == x.sha1;
      }
    }
  }

  /** No two survivors share a hash. */
  lemma {:induction false} SweepDistinct(known: seq<Hash>, ignore: Option<seq<string>>, cs: seq<Commit>)
    ensures DistinctHashes(Sweep(known, ignore, cs).1)
    decreases |cs|
  {
    if |cs| > 0 {
      var x := cs[0];
      if x.sha1 in known {
        SweepDistinct(known, ignore, cs[1..]);
      } else {
        var k1 := known + [x.sha1];
        SweepDistinct(k1, ignore, cs[1..]);
        SweepSurvivors(k1, ignore, cs[1..]);
        var rest := Sweep(k1, ignore, cs[1..]);
        if !Ignored(ignore, x.author) {
          var kept := [x] + rest.1;
          forall j | 1 <= j < |kept| ensures kept[j].sha1 != x.sha1 {
            assert kept[j] in rest.1;
          }
        }
      }
    }
  }

  /** The known hashes only grow, and grow by exactly the hashes of the
      input (ignored commits included); every survivor had a new hash and a
      relevant author, and no two survivors share a hash. */
  lemma SweepGuarantees(known: seq<Hash>, ignore: Option<seq<string>>, cs: seq<Commit>)
    ensures var res := Sweep(known, ignore, cs);
            && (forall h :: h in res.0 <==> h in known || h in Hashes(cs))
            && (forall c :: c in res.1 ==> c in cs && c.sha1 !in known && c.sha1 in res.0 && !Ignored(ignore, c.author))
            && DistinctHashes(res.1)
            && (NoDuplicates(known) ==> NoDuplicates(res.0))
  {
    SweepKnown(known, ignore, cs);
    SweepSurvivors(known, ignore, cs);
    SweepDistinct(known, ignore, cs);
  }

  /** Processing one more commit at the end: the step the source's loop takes. */
  lemma {:induction false} SweepSnoc(known: seq<Hash>, ignore: Option<seq<string>>, cs: seq<Commit>, c: Commit)
    ensures Sweep(known, ignore, cs + [c]) ==
            var prior := Sweep(known, ignore, cs);
            if c.sha1 in prior.0 then prior
            else (prior.0 + [c.sha1], prior.1 + (if Ignored(ignore, c.author) then [] else [c]))
    decreases |cs|
  {
    if |cs| == 0 {
      assert cs + [c] == [c];
      assert [c][1..] == [];
      assert Sweep(known, ignore, cs) == (known, []);
      assert Sweep(known + [c.sha1], ignore, []) == (known + [c.sha1], []);
      if c.sha1 in known {
        assert Sweep(known, ignore, [c]) == Sweep(known, ignore, []);
      } else if Ignored(ignore, c.author) {
        assert Sweep(known, ignore, [c]) == (known + [c.sha1], []);
      } else {
        assert [c] + [] == [c];
        assert [] + [c] == [c];
        assert Sweep(known, ignore, [c]) == (known + [c.sha1], [c] + []);
      }
    } else {
      var x := cs[0];
      assert (cs + [c])[1..] == cs[1..] + [c];
      assert (cs + [c])[0] == x;
      if x.sha1 in known {
        SweepSnoc(known, ignore, cs[1..], c);
        assert Sweep(known, ignore, cs + [c]) == Sweep(known, ignore, cs[1..] + [c]);
        assert Sweep(known, ignore, cs) == Sweep(known, ignore, cs[1..]);
      } else {
        var k1 := known + [x.sha1];
        SweepSnoc(k1, ignore, cs[1..], c);
        var inner := Sweep(k1, ignore, cs[1..]);
        var innerSnoc := Sweep(k1, ignore, cs[1..] + [c]);
        if Ignored(ignore, x.author) {
          assert Sweep(known, ignore, cs + [c]) == innerSnoc;
          assert Sweep(known, ignore, cs) == inner;
        } else {
          assert Sweep(known, ignore, cs + [c]) == (innerSnoc.0, [x] + innerSnoc.1);
          assert Sweep(known, ignore, cs) == (inner.0, [x] + inner.1);
          var added: seq<Commit> := if Ignored(ignore, c.author) then [] else [c];
          assert [x] + (inner.1 + added) == ([x] + inner.1) + added;
        }
      }
    }
  }

  /** Commits whose hashes are all known produce nothing and record nothing. */
  lemma {:induction false} SweepAllKnown(known: seq<Hash>, ignore: Option<seq<string>>, cs: seq<Commit>)
    requires forall i :: 0 <= i < |cs| ==> cs[i].sha1 in known
    ensures Sweep(known, ignore, cs) == (known, [])
  {
    if |cs| > 0 {
      SweepAllKnown(known, ignore, cs[1..]);
    }
  }

  /** With nothing known yet, a first commit by a relevant author survives. */
  lemma SweepFromNothingKeepsFirst(ignore: Option<seq<string>>, cs: seq<Commit>)
    requires |cs| > 0 && !Ignored(ignore, cs[0].author)
    ensures |Sweep([], ignore, cs).1| > 0 && Sweep([], ignore, cs).1[0] == cs[0]
  {
  }

  /** A hash surfaced by one pass is never surfaced by a later pass that
      starts from the hashes the first one left behind. */
  lemma NoReemissionAcrossPasses(known: seq<Hash>, ignore1: Option<seq<string>>, cs1: seq<Commit>,
                                 ignore2: Option<seq<string>>, cs2: seq<Commit>)
    ensures var first := Sweep(known, ignore1, cs1);
            var second := Sweep(first.0, ignore2, cs2);
            forall c1, c2 :: c1 in first.1 && c2 in second.1 ==> c1.sha1 != c2.sha1
  {
    var first := Sweep(known, ignore1, cs1);
    SweepGuarantees(known, ignore1, cs1);
    SweepGuarantees(first.0, ignore2, cs2);
  }

  /** Adding the observation of one more folder keeps what loading
      promises of the commits so far: distinct hashes, none known before the run,
      all recorded, none by an ignored author. */
  lemma ExtendObserved(obs: seq<Observation>, ob: Observation, shared: seq<Hash>, known: seq<Hash>,
                       next: seq<Hash>, ignore: Option<seq<string>>)
    requires forall h :: h in shared ==> h in known
    requires forall h :: h in known ==> h in next
    requires DistinctHashes(AllCommits(obs))
    requires forall c :: c in AllCommits(obs) ==> c.sha1 !in shared && c.sha1 in known && !Ignored(ignore, c.author)
    requires DistinctHashes(ob.commits)
    requires forall c :: c in ob.commits ==> c.sha1 !in known && c.sha1 in next && !Ignored(ignore, c.author)
    ensures DistinctHashes(AllCommits(obs + [ob]))
    ensures forall c :: c in AllCommits(obs + [ob]) ==> c.sha1 !in shared && c.sha1 in next && !Ignored(ignore, c.author)
  {
    forall x, y | x in AllCommits(obs) && y in ob.commits ensures x.sha1 != y.sha1 {
      assert x.sha1 in known && y.sha1 !in known;
    }
    DistinctConcat(AllCommits(obs), ob.commits);
    AllCommitsAppend(obs, ob);
  }

  /** What loading keeps of the commits observed so far: distinct hashes,
      none among the hashes known before the run, all among those known
      now, none by an ignored author. */
  predicate FreshSince(obs: seq<Observation>, shared: seq<Hash>, known: seq<Hash>, ignore: Option<seq<string>>) {
    && DistinctHashes(AllCommits(obs))
    && forall c :: c in AllCommits(obs) ==> c.sha1 !in shared && c.sha1 in known && !Ignored(ignore, c.author)
  }
}
