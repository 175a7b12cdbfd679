/** The transport records of core/transport.py: one commit, and one named
    batch of commits per observed folder. */
module Transport {
  import opened Outcomes

  /** A parsed time stamp.  `datetime.fromisoformat` is not modelled: it is
      passed to the parsers as an `IsoParser` that may reject its input. */
  datatype Instant = Instant(epochSeconds: int, offsetMinutes: int)

  type IsoParser = string -> Option<Instant>

  /** How a time stamp is shown (`str()` or `strftime`); formatting dates
      is not modelled. */
  type DateText = Instant -> string

  /** `Commit`: `sha1` and `branch` are `None` unless given. */
  datatype Commit = Commit(author: string, date: Instant, message: string,
                           sha1: Option<string>, branch: Option<string>)

  /** `str(commit.sha1)`: a missing hash prints as `None`. */
  function HashText(sha1: Option<string>): (t: string)
    ensures sha1.Some? ==> t == sha1.value
    ensures sha1.None? ==> t == "None"
  {
    match sha1
    case Some(h) => h
    case None => "None"
  }

  /** `Observation`: an observed folder and the commits found in it. */
  datatype Observation = Observation(name: string, commits: seq<Commit>)

  /** `Commit.__init__`, with the keyword defaults of its signature. */
  function NewCommit(author: string, date: Instant, message: string,
                     commitHash: Option<string> := None, branch: Option<string> := None): (c: Commit)
    ensures c.author == author && c.date == date && c.message == message
    ensures c.sha1 == commitHash && c.branch == branch
  {
    Commit(author, date, message, commitHash, branch)
  }

  /** `Observation.__init__`. */
  function NewObservation(name: string, commits: seq<Commit>): (o: Observation)
    ensures o.name == name && o.commits == commits
  {
    Observation(name, commits)
  }

  /** The `sha1` of every commit, in order. */
  function Hashes(cs: seq<Commit>): (hs: seq<Option<string>>)
    ensures |hs| == |cs|
    ensures forall i :: 0 <= i < |cs| ==> hs[i] == cs[i].sha1
  {
    if |cs| == 0 then [] else [cs[0].sha1] + Hashes(cs[1..])
  }

  lemma HashesAppend(a: seq<Commit>, b: seq<Commit>)
    ensures Hashes(a + b) == Hashes(a) + Hashes(b)
  {
  }

  /** Every commit of every observation, folder after folder. */
  function AllCommits(obs: seq<Observation>): (cs: seq<Commit>)
  {
    if |obs| == 0 then [] else obs[0].commits + AllCommits(obs[1..])
  }

  /** No two commits carry the same `sha1`. */
  predicate DistinctHashes(cs: seq<Commit>) {
    forall i, j :: 0 <= i < j < |cs| ==> cs[i].sha1 != cs[j].sha1
  }

  /** `list.reverse()`. */
  function Reverse<T>(s: seq<T>): (r: seq<T>)
    ensures |r| == |s|
    ensures forall i :: 0 <= i < |s| ==> r[i] == s[|s| - 1 - i]
  {
    if |s| == 0 then [] else Reverse(s[1..]) + [s[0]]
  }

  lemma ReverseInvolutive<T>(s: seq<T>)
    ensures Reverse(Reverse(s)) == s
  {
    var r := Reverse(Reverse(s));
    assert forall i :: 0 <= i < |s| ==> r[i] == s[i];
  }

  /** Reversal keeps exactly the same elements. */
  lemma ReverseSameElements<T>(s: seq<T>)
    ensures forall x :: x in Reverse(s) <==> x in s
  {
    var r := Reverse(s);
    forall x | x in s ensures x in r {
      var i :| 0 <= i < |s| && s[i] == x;
      assert r[|s| - 1 - i] == x;
    }
  }

  /** Reversal neither creates nor removes a repeated hash. */
  lemma ReverseKeepsDistinct(cs: seq<Commit>)
    requires DistinctHashes(cs)
    ensures DistinctHashes(Reverse(cs))
  {
    var r := Reverse(cs);
    forall i, j | 0 <= i < j < |r| ensures r[i].sha1 != r[j].sha1 {
      assert r[i] == cs[|cs| - 1 - i] && r[j] == cs[|cs| - 1 - j];
    }
  }

  lemma {:induction false} AllCommitsAppend(obs: seq<Observation>, o: Observation)
    ensures AllCommits(obs + [o]) == AllCommits(obs) + o.commits
  {
    if |obs| == 0 {
      assert AllCommits([o]) == o.commits + AllCommits([]);
    } else {
      assert (obs + [o])[1..] == obs[1..] + [o];
      AllCommitsAppend(obs[1..], o);
    }
  }

  /** Every commit of a batch comes from one of its observations. */
  lemma {:induction false} AllCommitsFrom(obs: seq<Observation>, c: Commit)
    requires c in AllCommits(obs)
    ensures exists i :: 0 <= i < |obs| && c in obs[i].commits
  {
    if c !in obs[0].commits {
      AllCommitsFrom(obs[1..], c);
      var i :| 0 <= i < |obs[1..]| && c in obs[1..][i].commits;
      assert c in obs[i + 1].commits;
    }
  }

  /** Two hash-distinct lists with no hash in common join into a hash-distinct list. */
  lemma DistinctConcat(a: seq<Commit>, b: seq<Commit>)
    requires DistinctHashes(a) && DistinctHashes(b)
    requires forall x, y :: x in a && y in b ==> x.sha1 != y.sha1
    ensures DistinctHashes(a + b)
  {
    var ab := a + b;
    forall i, j | 0 <= i < j < |ab| ensures ab[i].sha1 != ab[j].sha1 {
      if j < |a| {
        assert ab[i] == a[i] && ab[j] == a[j];
      } else if i >= |a| {
        assert ab[i] == b[i - |a|] && ab[j] == b[j - |a|];
      } else {
        assert ab[i] in a && ab[j] in b;
      }
    }
  }

  /** `is_empty`: no list at all, an empty list, or a list whose every
      observation holds no commit. */
  function IsEmpty(observations: Option<seq<Observation>>): (r: bool)
    ensures r <==> observations.None?
                   || forall i :: 0 <= i < |observations.value| ==> |observations.value[i].commits| == 0
  {
    observations.None? || |observations.value| == 0 || NoCommitIn(observations.value)
  }

  /** The loop of `is_empty`: the first observation with a commit decides. */
  function NoCommitIn(obs: seq<Observation>): (r: bool)
    ensures r <==> forall i :: 0 <= i < |obs| ==> |obs[i].commits| == 0
  {
    if |obs| == 0 then true
    else if |obs[0].commits| > 0 then false
    else NoCommitIn(obs[1..])
  }

  /** A batch is empty exactly when, taken together, it holds no commit. */
  lemma {:induction false} EmptyIffNoCommits(obs: seq<Observation>)
    ensures IsEmpty(Some(obs)) <==> AllCommits(obs) == []
  {
    if |obs| > 0 {
      EmptyIffNoCommits(obs[1..]);
      assert AllCommits(obs) == obs[0].commits + AllCommits(obs[1..]);
      if |obs[0].commits| == 0 {
        assert IsEmpty(Some(obs)) == IsEmpty(Some(obs[1..])) by {
          forall i | 1 <= i < |obs| ensures obs[i].commits == obs[1..][i - 1].commits {}
        }
      }
    }
  }
}
