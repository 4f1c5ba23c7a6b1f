/**
 * The `purge` command (lib/commands/delete-old-branches.js): once the last
 * merge to master is old enough, every Crowdin branch that has no git head
 * any more and was last updated too many days ago is deleted.
 */
module DeleteOldBranches {
  import opened Wrappers
  import opened Strings
  import opened Settings
  import opened CrowdinApi
  import BranchName

  const MsPerMinute: int := 1000 * 60
  const MsPerDay: int := 1000 * 60 * 60 * 24

  /** The earliest time a JavaScript `Date` can hold, used for "never updated". */
  const OldestPossibleDate: int := -8640000000000000

  // Dates are milliseconds since the epoch, read in UTC.

  /** `Date.UTC` of a date's year, month, day, hours and minutes: seconds and milliseconds dropped. */
  function TruncateToMinute(t: int): (r: int)
    ensures r <= t < r + MsPerMinute
    ensures r % MsPerMinute == 0
  {
    t - t % MsPerMinute
  }

  /** `_getDateDiff`: whole units of `ms` between the two minute-truncated times, rounded down. */
  function DateDiff(t1: int, t2: int, ms: int): (r: int)
    requires ms > 0
    ensures r * ms <= TruncateToMinute(t2) - TruncateToMinute(t1) < r * ms + ms
  {
    (TruncateToMinute(t2) - TruncateToMinute(t1)) / ms
  }

  function DiffInMinutes(t1: int, t2: int): int {
    DateDiff(t1, t2, MsPerMinute)
  }

  function DiffInDays(t1: int, t2: int): int {
    DateDiff(t1, t2, MsPerDay)
  }

  /** Minutes are counted exactly: the truncated times differ by a whole number of minutes. */
  lemma DiffInMinutesExact(t1: int, t2: int)
    ensures DiffInMinutes(t1, t2) * MsPerMinute == TruncateToMinute(t2) - TruncateToMinute(t1)
  {
    var a, b := TruncateToMinute(t1), TruncateToMinute(t2);
    assert a == (a / MsPerMinute) * MsPerMinute && b == (b / MsPerMinute) * MsPerMinute;
    assert b - a == (b / MsPerMinute - a / MsPerMinute) * MsPerMinute;
  }

  /** Seconds play no part: two times in the same minute are zero minutes apart. */
  lemma SameMinute(t1: int, t2: int)
    requires TruncateToMinute(t1) == TruncateToMinute(t2)
    ensures DiffInMinutes(t1, t2) == 0 && DiffInDays(t1, t2) == 0
  {
  }

  /** Swapping the dates negates the number of minutes. */
  lemma DiffInMinutesAntisymmetric(t1: int, t2: int)
    ensures DiffInMinutes(t2, t1) == -DiffInMinutes(t1, t2)
  {
    DiffInMinutesExact(t1, t2);
    DiffInMinutesExact(t2, t1);
  }

  /** The number of days is the number of minutes divided by 1440, rounded down. */
  lemma DiffInDaysFromMinutes(t1: int, t2: int)
    ensures DiffInDays(t1, t2) == DiffInMinutes(t1, t2) / 1440
  {
    var m := DiffInMinutes(t1, t2);
    DiffInMinutesExact(t1, t2);
    var q, r := m / 1440, m % 1440;
    assert m == q * 1440 + r && 0 <= r < 1440;
    assert m * MsPerMinute == q * MsPerDay + r * MsPerMinute;
    assert 0 <= r * MsPerMinute < MsPerDay;
    DivUnique(m * MsPerMinute, MsPerDay, q, r * MsPerMinute);
  }

  lemma DivUnique(a: int, d: int, q: int, r: int)
    requires d > 0 && a == q * d + r && 0 <= r < d
    ensures a / d == q
  {
    var q', r' := a / d, a % d;
    assert (q - q') * d == r' - r;
    if q - q' >= 1 {
      MulAtLeast(q - q', d);
    } else if q' - q >= 1 {
      MulAtLeast(q' - q, d);
    }
  }

  lemma MulAtLeast(k: int, d: int)
    requires k >= 1 && d > 0
    ensures k * d >= d
  {
  }

  /** Later "now", never fewer minutes. */
  lemma DiffInMinutesMonotonic(t1: int, t2: int, t3: int)
    requires t2 <= t3
    ensures DiffInMinutes(t1, t2) <= DiffInMinutes(t1, t3)
  {
    DiffInMinutesExact(t1, t2);
    DiffInMinutesExact(t1, t3);
    assert TruncateToMinute(t2) <= TruncateToMinute(t3);
  }

  // The last update of a Crowdin branch.

  /**
   * `_getFileLastUpdated`: a file's own date; otherwise the date of the first
   * child, recursively; and for an empty directory the oldest possible date.
   */
  function LastUpdated(n: Node): int
    decreases n
  {
    if n.nodeType == "file" then n.lastUpdated
    else if |n.files| > 0 then LastUpdated(n.files[0])
    else OldestPossibleDate
  }

  /** `f` lies on the path from `n` that always takes the first child and stops at a file. */
  predicate OnFirstPath(n: Node, f: Node)
    decreases n
  {
    n == f || (n.nodeType != "file" && |n.files| > 0 && OnFirstPath(n.files[0], f))
  }

  /**
   * Only the first file on the first-child path counts: the date is that
   * file's date, or the oldest possible date when the path reaches no file.
   */
  lemma {:induction false} LastUpdatedSource(n: Node)
    ensures (exists f :: OnFirstPath(n, f) && f.nodeType == "file" && LastUpdated(n) == f.lastUpdated)
         || (LastUpdated(n) == OldestPossibleDate && forall f :: OnFirstPath(n, f) ==> f.nodeType != "file")
    decreases n
  {
    if n.nodeType == "file" {
      assert OnFirstPath(n, n);
    } else if |n.files| > 0 {
      LastUpdatedSource(n.files[0]);
    } else {
      forall f | OnFirstPath(n, f) ensures f.nodeType != "file" {
      }
    }
  }

  /**
   * A branch with no file on its first-child path is older than any sensible
   * number of days: from the oldest possible date to any time after the
   * epoch there are at least 100000000 days.
   */
  lemma EmptyBranchIsAncient(n: Node, now: int, days: int)
    requires LastUpdated(n) == OldestPossibleDate
    requires now >= 0 && days < 100000000
    ensures DiffInDays(LastUpdated(n), now) > days
  {
    var d := TruncateToMinute(now) - TruncateToMinute(OldestPossibleDate);
    assert TruncateToMinute(OldestPossibleDate) == OldestPossibleDate;
    assert d >= 100000000 * MsPerDay;
  }

  // The remote heads, from `git ls-remote --heads`.

  const HeadsPrefix: string := "refs/heads/"

  /** The first line terminator at or after `i`, or the end of `s`. */
  function LineEnd(s: string, i: nat): (e: nat)
    requires i <= |s|
    ensures i <= e <= |s|
    ensures e < |s| ==> IsLineTerminator(s[e])
    ensures forall k :: i <= k < e ==> !IsLineTerminator(s[k])
    decreases |s| - i
  {
    if i == |s| || IsLineTerminator(s[i]) then i else LineEnd(s, i + 1)
  }

  /**
   * `s.match(/refs\/heads\/.+/g)`, scanning left to right: at each position
   * where `refs/heads/` is followed by at least one character of the same
   * line, the match runs to the end of that line.
   */
  function HeadMatches(s: string): (r: seq<string>)
    ensures forall k :: 0 <= k < |r| ==>
              |r[k]| > |HeadsPrefix| && r[k][..|HeadsPrefix|] == HeadsPrefix && NoLineTerminators(r[k])
    decreases |s|
  {
    if s == [] then []
    else if |s| > |HeadsPrefix| && s[..|HeadsPrefix|] == HeadsPrefix && !IsLineTerminator(s[|HeadsPrefix|]) then
      var e := LineEnd(s, |HeadsPrefix|);
      [s[..e]] + HeadMatches(s[e..])
    else HeadMatches(s[1..])
  }

  /**
   * `_getGitRemoteBranches`: each match with its `refs/heads/` removed.
   * With no match at all, `match` yields `null` and the command throws: `None`.
   */
  function RemoteHeads(lsRemote: string): (r: Option<seq<string>>)
    ensures r.None? <==> HeadMatches(lsRemote) == []
    ensures r.Some? ==> |r.value| == |HeadMatches(lsRemote)|
  {
    HeadNames(HeadMatches(lsRemote))
  }

  /** The matches with `refs/heads/` removed, or `None` for `null`. */
  function HeadNames(ms: seq<string>): (r: Option<seq<string>>)
    ensures r.None? <==> ms == []
    ensures r.Some? ==> |r.value| == |ms|
  {
    if ms == [] then None
    else Some(seq(|ms|, i requires 0 <= i < |ms| => ReplaceFirst(ms[i], HeadsPrefix, "")))
  }

  /** Each head is its match with the leading `refs/heads/` cut off. */
  lemma RemoteHeadsAreNames(lsRemote: string)
    requires RemoteHeads(lsRemote).Some?
    ensures var ms, hs := HeadMatches(lsRemote), RemoteHeads(lsRemote).value;
            forall i :: 0 <= i < |hs| ==> HeadsPrefix + hs[i] == ms[i] && hs[i] != [] && NoLineTerminators(hs[i])
  {
    var ms, hs := HeadMatches(lsRemote), RemoteHeads(lsRemote).value;
    forall i | 0 <= i < |hs|
      ensures HeadsPrefix + hs[i] == ms[i] && hs[i] != [] && NoLineTerminators(hs[i])
    {
      var rest := ms[i][|HeadsPrefix|..];
      assert ms[i] == HeadsPrefix + rest;
      ReplaceFirstPrefix(HeadsPrefix, rest);
    }
  }

  /** Text without an `r` never starts a match, so the scan passes over it. */
  lemma {:induction false} HeadMatchesSkip(a: string, t: string)
    requires 'r' !in a
    ensures HeadMatches(a + t) == HeadMatches(t)
  {
    if a != [] {
      var s := a + t;
      assert s[0] == a[0] && a[0] != 'r';
      assert HeadsPrefix[0] == 'r';
      assert !(|s| > |HeadsPrefix| && s[..|HeadsPrefix|] == HeadsPrefix) by {
        if |s| > |HeadsPrefix| {
          assert s[..|HeadsPrefix|][0] == s[0];
        }
      }
      assert HeadMatches(s) == HeadMatches(s[1..]);
      assert s[1..] == a[1..] + t;
      HeadMatchesSkip(a[1..], t);
    } else {
      assert a + t == t;
    }
  }

  /** A ref that runs to the end of its line (or of the text) is one match. */
  lemma HeadMatchesRef(name: string, rest: string)
    requires name != [] && NoLineTerminators(name)
    requires rest == [] || IsLineTerminator(rest[0])
    ensures HeadMatches(HeadsPrefix + name + rest) == [HeadsPrefix + name] + HeadMatches(rest)
  {
    var s := HeadsPrefix + name + rest;
    var n := |HeadsPrefix|;
    assert s[..n] == HeadsPrefix;
    assert s[n] == name[0];
    var e := LineEnd(s, n);
    assert forall k :: n <= k < n + |name| ==> s[k] == name[k - n];
    assert n + |name| < |s| ==> s[n + |name|] == rest[0];
    assert e == n + |name|;
    assert s[..e] == HeadsPrefix + name;
    assert s[e..] == rest;
  }

  /** One line of `git ls-remote --heads`: a hash, a tab, the ref and a newline. */
  function LsRemoteLine(hash: string, name: string): string {
    hash + "\t" + HeadsPrefix + name + "\n"
  }

  function LsRemoteOutput(hashes: seq<string>, names: seq<string>): string
    requires |hashes| == |names|
  {
    if names == [] then [] else LsRemoteLine(hashes[0], names[0]) + LsRemoteOutput(hashes[1..], names[1..])
  }

  /** One head line, hash first: its branch is matched once. */
  lemma HeadMatchesLine(hash: string, name: string, rest: string)
    requires 'r' !in hash && name != [] && NoLineTerminators(name)
    ensures HeadMatches(LsRemoteLine(hash, name) + rest) == [HeadsPrefix + name] + HeadMatches(rest)
  {
    var line := LsRemoteLine(hash, name);
    assert line + rest == (hash + "\t") + (HeadsPrefix + name + ("\n" + rest));
    HeadMatchesSkip(hash + "\t", HeadsPrefix + name + ("\n" + rest));
    HeadMatchesRef(name, "\n" + rest);
    HeadMatchesSkip("\n", rest);
  }

  lemma {:induction false} HeadMatchesOutput(hashes: seq<string>, names: seq<string>)
    requires |hashes| == |names|
    requires forall i :: 0 <= i < |hashes| ==> 'r' !in hashes[i]
    requires forall i :: 0 <= i < |names| ==> names[i] != [] && NoLineTerminators(names[i])
    ensures var ms := HeadMatches(LsRemoteOutput(hashes, names));
            |ms| == |names| && forall i :: 0 <= i < |names| ==> ms[i] == HeadsPrefix + names[i]
  {
    if names != [] {
      HeadMatchesOutput(hashes[1..], names[1..]);
      HeadMatchesLine(hashes[0], names[0], LsRemoteOutput(hashes[1..], names[1..]));
    }
  }

  /**
   * For well-formed `ls-remote` output (hexadecimal hashes, non-empty branch
   * names), the remote heads are exactly the listed branch names, in order.
   */
  lemma RemoteHeadsOfLsRemote(hashes: seq<string>, names: seq<string>)
    requires |hashes| == |names| && names != []
    requires forall i :: 0 <= i < |hashes| ==> 'r' !in hashes[i]
    requires forall i :: 0 <= i < |names| ==> names[i] != [] && NoLineTerminators(names[i])
    ensures RemoteHeads(LsRemoteOutput(hashes, names)) == Some(names)
  {
    HeadMatchesOutput(hashes, names);
    RemoteHeadsFromMatches(LsRemoteOutput(hashes, names), names);
  }

  /** When the matches are `refs/heads/` and the names, the heads are the names. */
  lemma RemoteHeadsFromMatches(s: string, names: seq<string>)
    requires names != []
    requires |HeadMatches(s)| == |names|
    requires forall i :: 0 <= i < |names| ==> HeadMatches(s)[i] == HeadsPrefix + names[i]
    ensures RemoteHeads(s) == Some(names)
  {
    var ms := HeadMatches(s);
    var hs := RemoteHeads(s).value;
    forall i | 0 <= i < |hs| ensures hs[i] == names[i] {
      ReplaceFirstPrefix(HeadsPrefix, names[i]);
    }
    assert hs == names;
  }

  /** A ref name starts at `i`: `refs/heads/` and then a character that ends no line. */
  predicate HeadAt(s: string, i: nat) {
    i + |HeadsPrefix| < |s| && s[i..i + |HeadsPrefix|] == HeadsPrefix && !IsLineTerminator(s[i + |HeadsPrefix|])
  }

  /** The search finds nothing exactly when no position starts a ref name. */
  lemma {:induction false} HeadMatchesEmptyIff(s: string)
    ensures HeadMatches(s) == [] <==> forall i: nat :: !HeadAt(s, i)
    decreases |s|
  {
    if s == [] {
    } else if HeadAt(s, 0) {
      assert s[0..|HeadsPrefix|] == s[..|HeadsPrefix|];
    } else {
      assert !(|s| > |HeadsPrefix| && s[..|HeadsPrefix|] == HeadsPrefix && !IsLineTerminator(s[|HeadsPrefix|])) by {
        if |s| > |HeadsPrefix| {
          assert s[0..|HeadsPrefix|] == s[..|HeadsPrefix|];
        }
      }
      assert HeadMatches(s) == HeadMatches(s[1..]);
      HeadMatchesEmptyIff(s[1..]);
      forall i: nat ensures HeadAt(s[1..], i) <==> HeadAt(s, i + 1) {
        if i + |HeadsPrefix| < |s[1..]| {
          assert s[1..][i..i + |HeadsPrefix|] == s[i + 1..i + 1 + |HeadsPrefix|];
        }
      }
      if forall i: nat :: !HeadAt(s[1..], i) {
        forall i: nat ensures !HeadAt(s, i) {
          if i > 0 {
            assert HeadAt(s[1..], i - 1) <==> HeadAt(s, i);
          }
        }
      }
    }
  }

  /**
   * The command throws exactly when the output of `git ls-remote` has no
   * ref name anywhere (an empty remote, say).
   */
  lemma NoHeadsNoMatch(lsRemote: string)
    ensures RemoteHeads(lsRemote).None? <==> forall i: nat :: !HeadAt(lsRemote, i)
  {
    HeadMatchesEmptyIff(lsRemote);
  }

  // Which branches go.

  /** The git heads with `/` turned into `--`, as Crowdin names them. */
  function ConvertedHeads(heads: seq<string>): (r: seq<string>)
    ensures |r| == |heads|
    ensures forall i :: 0 <= i < |heads| ==> r[i] == BranchName.CrowdinBranchName(heads[i])
  {
    seq(|heads|, i requires 0 <= i < |heads| => BranchName.CrowdinBranchName(heads[i]))
  }

  /** `projectInfoJson.files.filter(file => file.node_type === 'branch')`. */
  function BranchNodes(files: seq<Node>): (r: seq<Node>)
    ensures forall n :: n in r <==> n in files && n.nodeType == "branch"
    ensures |r| <= |files|
  {
    if files == [] then []
    else BranchNodes(files[..|files| - 1])
         + (if files[|files| - 1].nodeType == "branch" then [files[|files| - 1]] else [])
  }

  /** A branch is deleted when no git head maps to its name and it is older than the limit. */
  predicate IsStale(cfg: Settings, now: int, converted: seq<string>, b: Node) {
    b.name !in converted && DiffInDays(LastUpdated(b), now) > cfg.daysSinceLastUpdatedToDeleteBranchSafely
  }

  /** The names of the stale branches, in the order Crowdin lists them. */
  function StaleBranches(cfg: Settings, now: int, converted: seq<string>, branches: seq<Node>): seq<string> {
    if branches == [] then []
    else
      var last := branches[|branches| - 1];
      StaleBranches(cfg, now, converted, branches[..|branches| - 1])
      + (if IsStale(cfg, now, converted, last) then [last.name] else [])
  }

  /** A name is deleted exactly when some listed branch of that name is stale. */
  lemma {:induction false} StaleBranchesIff(cfg: Settings, now: int, converted: seq<string>, branches: seq<Node>, name: string)
    ensures name in StaleBranches(cfg, now, converted, branches)
        <==> exists b :: b in branches && b.name == name && IsStale(cfg, now, converted, b)
  {
    if branches != [] {
      var init, last := branches[..|branches| - 1], branches[|branches| - 1];
      StaleBranchesIff(cfg, now, converted, init, name);
      assert branches == init + [last];
      if exists b :: b in branches && b.name == name && IsStale(cfg, now, converted, b) {
        var b :| b in branches && b.name == name && IsStale(cfg, now, converted, b);
        if b != last {
          assert b in init;
        }
      }
    }
  }

  /** A Crowdin branch whose git branch still exists on the remote is never deleted. */
  lemma LiveBranchKept(cfg: Settings, now: int, heads: seq<string>, branches: seq<Node>, i: nat)
    requires i < |heads|
    ensures BranchName.CrowdinBranchName(heads[i]) !in StaleBranches(cfg, now, ConvertedHeads(heads), branches)
  {
    StaleBranchesIff(cfg, now, ConvertedHeads(heads), branches, BranchName.CrowdinBranchName(heads[i]));
  }

  // The command.

  /** How a `deleteBranch` call settles: resolved or rejected. */
  datatype DeleteReply = Resolved | Rejected

  /** The lines the command prints per deletion. */
  datatype PurgeEvent = Removed(name: string) | FailedToRemove(name: string)

  /**
   * `TooSoon`: the last master merge is too recent, exit code 1. `Crashed`:
   * `ls-remote` listed no head. `Purged`: the deletions were issued;
   * `nothingToDelete` is when "All branches are actual" is printed.
   */
  datatype PurgeOutcome = TooSoon | Crashed | Purged(nothingToDelete: bool)

  /**
   * Minutes since the last commit to master. `None` is the date of
   * unparsable `git log` output: every difference with it is `NaN`.
   */
  function MinutesSinceMasterMerge(lastMasterCommit: Option<int>, now: int): (r: Option<int>)
    ensures r.Some? <==> lastMasterCommit.Some?
  {
    match lastMasterCommit
    case None => None
    case Some(t) => Some(DiffInMinutes(t, now))
  }

  /** The guard: `NaN < limit` is false, so an unreadable date never stops the purge. */
  predicate TooSoonToPurge(cfg: Settings, lastMasterCommit: Option<int>, now: int) {
    var m := MinutesSinceMasterMerge(lastMasterCommit, now);
    m.Some? && m.value < cfg.minutesSinceLastMasterMergeToPurgeSafely
  }

  function DeleteRequests(names: seq<string>): (r: seq<Request>)
    ensures |r| == |names|
    ensures forall i :: 0 <= i < |names| ==> r[i] == DeleteBranch(names[i])
  {
    seq(|names|, i requires 0 <= i < |names| => DeleteBranch(names[i]))
  }

  function DeleteEvent(name: string, reply: DeleteReply): PurgeEvent {
    if reply == Resolved then Removed(name) else FailedToRemove(name)
  }

  function DeleteEvents(names: seq<string>, deleteReply: string -> DeleteReply): (r: seq<PurgeEvent>)
    ensures |r| == |names|
    ensures forall i :: 0 <= i < |names| ==> r[i] == DeleteEvent(names[i], deleteReply(names[i]))
  {
    seq(|names|, i requires 0 <= i < |names| => DeleteEvent(names[i], deleteReply(names[i])))
  }

  lemma StaleBranchesStep(cfg: Settings, now: int, converted: seq<string>, branches: seq<Node>, i: nat)
    requires i < |branches|
    ensures StaleBranches(cfg, now, converted, branches[..i + 1])
         == StaleBranches(cfg, now, converted, branches[..i])
            + (if IsStale(cfg, now, converted, branches[i]) then [branches[i].name] else [])
  {
    assert branches[..i + 1][..i] == branches[..i];
  }

  lemma DeleteRequestsSnoc(names: seq<string>, name: string)
    ensures DeleteRequests(names + [name]) == DeleteRequests(names) + [DeleteBranch(name)]
  {
  }

  lemma DeleteEventsSnoc(names: seq<string>, name: string, deleteReply: string -> DeleteReply)
    ensures DeleteEvents(names + [name], deleteReply) == DeleteEvents(names, deleteReply) + [DeleteEvent(name, deleteReply(name))]
  {
  }

  /**
   * `deleteOldBranches`: the guard, then `info`, then one `delete-directory`
   * per stale branch, in list order. The deletions run concurrently in the
   * source; they are issued in list order, which is the order here.
   */
  method DeleteOldBranches(cfg: Settings, lastMasterCommit: Option<int>, now: int,
                           info: seq<Node>, lsRemote: string, deleteReply: string -> DeleteReply)
    returns (outcome: PurgeOutcome, trace: seq<Request>, events: seq<PurgeEvent>)
    ensures TooSoonToPurge(cfg, lastMasterCommit, now) ==> outcome == TooSoon && trace == [] && events == []
    ensures !TooSoonToPurge(cfg, lastMasterCommit, now) && RemoteHeads(lsRemote).None? ==>
              outcome == Crashed && trace == [GetInfo()] && events == []
    ensures !TooSoonToPurge(cfg, lastMasterCommit, now) && RemoteHeads(lsRemote).Some? ==>
              var stale := StaleBranches(cfg, now, ConvertedHeads(RemoteHeads(lsRemote).value), BranchNodes(info));
              outcome == Purged(stale == []) &&
              trace == [GetInfo()] + DeleteRequests(stale) &&
              events == DeleteEvents(stale, deleteReply)
  {
    trace, events := [], [];
    var minutes := MinutesSinceMasterMerge(lastMasterCommit, now);
    var tooSoon := minutes.Some? && minutes.value < cfg.minutesSinceLastMasterMergeToPurgeSafely;
    assert tooSoon == TooSoonToPurge(cfg, lastMasterCommit, now);
    if tooSoon {
      return TooSoon, trace, events;
    }
    trace := trace + [GetInfo()];
    var branches := BranchNodes(info);
    var heads := RemoteHeads(lsRemote);
    if heads.None? {
      return Crashed, trace, events;
    }
    var converted := ConvertedHeads(heads.value);
    var deletions, someDeleted;
    deletions, events, someDeleted := IssueDeletions(cfg, now, converted, branches, deleteReply);
    ghost var stale := StaleBranches(cfg, now, converted, branches);
    assert stale == StaleBranches(cfg, now, ConvertedHeads(RemoteHeads(lsRemote).value), BranchNodes(info));
    trace := trace + deletions;
    assert trace == [GetInfo()] + DeleteRequests(stale);
    outcome := Purged(!someDeleted);
  }

  /**
   * The `forEach` over the branches: a `delete-directory` request and its
   * printed outcome for each stale branch, in list order, and whether any
   * branch was deleted.
   */
  method IssueDeletions(cfg: Settings, now: int, converted: seq<string>, branches: seq<Node>,
                        deleteReply: string -> DeleteReply)
    returns (deletions: seq<Request>, events: seq<PurgeEvent>, someDeleted: bool)
    ensures var stale := StaleBranches(cfg, now, converted, branches);
            deletions == DeleteRequests(stale) && events == DeleteEvents(stale, deleteReply)
            && (someDeleted <==> stale != [])
  {
    deletions, events, someDeleted := [], [], false;
    ghost var done: seq<string> := [];
    var i := 0;
    while i < |branches|
      invariant 0 <= i <= |branches|
      invariant done == StaleBranches(cfg, now, converted, branches[..i])
      invariant deletions == DeleteRequests(done)
      invariant events == DeleteEvents(done, deleteReply)
      invariant someDeleted <==> done != []
    {
      var branch := branches[i];
      StaleBranchesStep(cfg, now, converted, branches, i);
      DeleteRequestsSnoc(done, branch.name);
      DeleteEventsSnoc(done, branch.name, deleteReply);
      var days := DiffInDays(LastUpdated(branch), now);
      if branch.name !in converted && days > cfg.daysSinceLastUpdatedToDeleteBranchSafely {
        someDeleted := true;
        deletions := deletions + [DeleteBranch(branch.name)];
        events := events + [DeleteEvent(branch.name, deleteReply(branch.name))];
        done := done + [branch.name];
      }
      i := i + 1;
    }
    assert branches[..i] == branches;
  }

  /** `ls-remote` output that is a single bare ref, as in the test suite's `refs/heads/master`. */
  lemma SingleRemoteHead(head: string)
    requires head != [] && NoLineTerminators(head)
    ensures RemoteHeads(HeadsPrefix + head) == Some([head])
  {
    HeadMatchesRef(head, []);
    assert HeadsPrefix + head + [] == HeadsPrefix + head;
    RemoteHeadsFromMatches(HeadsPrefix + head, [head]);
  }

  /**
   * The purge in the test suite: with one slash-free remote head (there,
   * `master`), a listed Crowdin branch of another name that is older than
   * the limit is deleted, and a resolved reply prints that it was removed.
   */
  lemma OldBranchPurged(cfg: Settings, now: int, b: Node, head: string, deleteReply: string -> DeleteReply)
    requires head != [] && NoLineTerminators(head) && '/' !in head
    requires b.nodeType == "branch" && b.name != head
    requires DiffInDays(LastUpdated(b), now) > cfg.daysSinceLastUpdatedToDeleteBranchSafely
    requires deleteReply(b.name) == Resolved
    ensures RemoteHeads(HeadsPrefix + head) == Some([head])
    ensures var stale := StaleBranches(cfg, now, ConvertedHeads([head]), BranchNodes([b]));
            stale == [b.name] && DeleteRequests(stale) == [DeleteBranch(b.name)]
            && DeleteEvents(stale, deleteReply) == [Removed(b.name)]
  {
    SingleRemoteHead(head);
    BranchName.CrowdinBranchNameNoSlash(head);
    assert ConvertedHeads([head]) == [head];
    assert [b][..0] == [];
    assert BranchNodes([b]) == [b];
    assert StaleBranches(cfg, now, [head], [b]) == [b.name];
  }
}
