/** Issues: a stable code with context, the outlet for what an agent cannot reconcile by itself. */
module Issues {
  import opened Limits
  import opened Lists
  import opened Platform

  datatype Issue = Issue(code: string, key: string, detail: string)

  predicate WellFormedIssue(lib: Library, issue: Issue) {
    && issue.code != ""
    && lib.validUtf8(issue.code) && lib.validUtf8(issue.key) && lib.validUtf8(issue.detail)
    && |issue.code| <= MAX_ISSUE_CODE_BYTES && |issue.key| <= MAX_ISSUE_KEY_BYTES
    && |issue.detail| <= MAX_ISSUE_DETAIL_BYTES
  }

  function IssueIdentity(issue: Issue): (string, string, string) {
    (issue.code, issue.key, issue.detail)
  }

  predicate AcceptedIssues(lib: Library, issues: seq<Issue>) {
    && |issues| <= MAX_ISSUES_PER_REPORT
    && (forall i :: i in issues ==> WellFormedIssue(lib, i))
    && Distinct(IssueIdentity, issues)
  }

  method ValidateIssues(lib: Library, issues: seq<Issue>) returns (ok: bool)
    ensures ok <==> AcceptedIssues(lib, issues)
  {
    if |issues| > MAX_ISSUES_PER_REPORT {
      return false;
    }
    ghost var valid := (i: Issue) => WellFormedIssue(lib, i);
    var seenIssues := {};
    for n := 0 to |issues|
      invariant UpTo(valid, issues, n)
      invariant seenIssues == KeySet(IssueIdentity, issues[..n])
      invariant Distinct(IssueIdentity, issues[..n])
    {
      var issue := issues[n];
      assert issue in issues;
      ExtendKeys(IssueIdentity, issues, n);
      DistinctPrefix(IssueIdentity, issues, n + 1);
      if issue.code == "" {
        return false;
      }
      if !lib.validUtf8(issue.code) || !lib.validUtf8(issue.key) || !lib.validUtf8(issue.detail) ||
         |issue.code| > MAX_ISSUE_CODE_BYTES || |issue.key| > MAX_ISSUE_KEY_BYTES ||
         |issue.detail| > MAX_ISSUE_DETAIL_BYTES {
        return false;
      }
      var identity := (issue.code, issue.key, issue.detail);
      if identity in seenIssues {
        return false;
      }
      seenIssues := seenIssues + {identity};
    }
    assert issues[..|issues|] == issues;
    UpToMeans(valid, issues, |issues|);
    return true;
  }
}
