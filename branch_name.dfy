/**
 * The git branch the helper works on and its name on Crowdin
 * (lib/utilities/branch-name.js). Crowdin branch names may not contain `/`,
 * so every `/` of the git name becomes `--`.
 */
module BranchName {
  import opened Strings

  /**
   * The git branch name: the first line of `git rev-parse --abbrev-ref HEAD`.
   * It is the text of `revParseOutput` up to its first newline.
   */
  function GitBranchName(revParseOutput: string): (r: string)
    ensures '\n' !in r
    ensures r <= revParseOutput
    ensures |r| < |revParseOutput| ==> revParseOutput[|r|] == '\n'
  {
    SplitFirst(revParseOutput, '\n');
    Split(revParseOutput, '\n')[0]
  }

  /** What the global replace `/\//g` → `--` turns one character into. */
  function MapChar(c: char): string {
    if c == '/' then "--" else [c]
  }

  /**
   * The Crowdin branch name: the git name with every `/` replaced by `--`.
   * The result has no `/`, and it is longer by one character per `/`.
   */
  function CrowdinBranchName(gitName: string): (r: string)
    ensures '/' !in r
    ensures |r| == |gitName| + Count(gitName, '/')
  {
    if gitName == [] then [] else MapChar(gitName[0]) + CrowdinBranchName(gitName[1..])
  }

  /** The replacement is global, so it distributes over concatenation. */
  lemma {:induction false} CrowdinBranchNameAppend(a: string, b: string)
    ensures CrowdinBranchName(a + b) == CrowdinBranchName(a) + CrowdinBranchName(b)
  {
    if a == [] {
      assert a + b == b;
    } else {
      assert (a + b)[1..] == a[1..] + b;
      CrowdinBranchNameAppend(a[1..], b);
    }
  }

  /** A name without `/` (such as `master`) is its own Crowdin name. */
  lemma {:induction false} CrowdinBranchNameNoSlash(gitName: string)
    requires '/' !in gitName
    ensures CrowdinBranchName(gitName) == gitName
  {
    if gitName != [] {
      CrowdinBranchNameNoSlash(gitName[1..]);
    }
  }

  /**
   * Reading a Crowdin name back: each `--`, taken from left to right,
   * becomes `/`. This is the reference against which the mapping is shown
   * to lose no information on realistic names.
   */
  function RestoreSlashes(r: string): string {
    if |r| >= 2 && r[0] == '-' && r[1] == '-' then "/" + RestoreSlashes(r[2..])
    else if r == [] then []
    else [r[0]] + RestoreSlashes(r[1..])
  }

  /** A name with no `--` and no `-` right before a `/`. */
  predicate Unambiguous(gitName: string) {
    forall i :: 0 <= i < |gitName| - 1 ==> gitName[i] == '-' ==> gitName[i + 1] != '-' && gitName[i + 1] != '/'
  }

  /** For unambiguous names the mapping can be undone. */
  lemma {:induction false} RestoreCrowdinBranchName(gitName: string)
    requires Unambiguous(gitName)
    ensures RestoreSlashes(CrowdinBranchName(gitName)) == gitName
  {
    if gitName != [] {
      var rest := gitName[1..];
      assert Unambiguous(rest) by {
        forall i | 0 <= i < |rest| - 1
          ensures rest[i] == '-' ==> rest[i + 1] != '-' && rest[i + 1] != '/'
        {
          assert rest[i] == gitName[i + 1] && rest[i + 1] == gitName[i + 2];
        }
      }
      RestoreCrowdinBranchName(rest);
      var tail := CrowdinBranchName(rest);
      var c := gitName[0];
      assert CrowdinBranchName(gitName) == MapChar(c) + tail;
      if c == '/' {
        assert (MapChar(c) + tail)[2..] == tail;
      } else if c == '-' {
        if rest != [] {
          assert rest[0] != '-' && rest[0] != '/';
          assert CrowdinBranchName(rest) == MapChar(rest[0]) + CrowdinBranchName(rest[1..]);
          assert tail[0] == rest[0];
        }
        assert (MapChar(c) + tail)[1..] == tail;
      } else {
        assert (MapChar(c) + tail)[1..] == tail;
      }
    }
  }

  /** Hence two distinct unambiguous git names never share a Crowdin name. */
  lemma CrowdinBranchNameInjective(a: string, b: string)
    requires Unambiguous(a) && Unambiguous(b)
    requires CrowdinBranchName(a) == CrowdinBranchName(b)
    ensures a == b
  {
    RestoreCrowdinBranchName(a);
    RestoreCrowdinBranchName(b);
  }

  /** In general the mapping is not injective: `a/b` and `a--b` collide. */
  lemma CrowdinBranchNameCollision()
    ensures CrowdinBranchName("a/b") == CrowdinBranchName("a--b") == "a--b"
  {
  }

  /**
   * A name with a single `/` between two slash-free parts, such as the test
   * suite's `feature/my-feature-branch`, which becomes `feature--my-feature-branch`.
   */
  lemma CrowdinBranchNameOneSlash(a: string, b: string)
    requires '/' !in a && '/' !in b
    ensures CrowdinBranchName(a + "/" + b) == a + "--" + b
  {
    CrowdinBranchNameNoSlash(a);
    CrowdinBranchNameNoSlash(b);
    CrowdinBranchNameAppend(a + "/", b);
    CrowdinBranchNameAppend(a, "/");
  }
}
