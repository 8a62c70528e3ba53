/** The job postings (app.py, `fetch_jobs`): a stub that returns three
    postings built from the requested role and employment type. */
module Jobs {

  /** One posting as `fetch_jobs` creates it. */
  datatype Job = Job(
    title: string,
    company: string,
    location: string,
    jobType: string,
    description: string)

  /** A posting after `analyze_resume` has attached its `ats_score`. */
  datatype ScoredJob = ScoredJob(job: Job, atsScore: real)

  /** `sub` occurs in `s` starting at index `k`. */
  predicate OccursAt(s: string, sub: string, k: int)
  {
    0 <= k <= |s| - |sub| && s[k..k + |sub|] == sub
  }

  /** `sub` occurs somewhere in `s` (Python's `sub in s`). */
  predicate Contains(s: string, sub: string)
  {
    exists k | 0 <= k <= |s| :: OccursAt(s, sub, k)
  }

  lemma ContainsMiddle(prefix: string, sub: string, suffix: string)
    ensures Contains(prefix + sub + suffix, sub)
  {
    var s := prefix + sub + suffix;
    assert OccursAt(s, sub, |prefix|);
  }

  /** The three sample postings, in this order. */
  function FetchJobs(role: string, jobType: string): (jobs: seq<Job>)
    ensures |jobs| == 3
    ensures forall i :: 0 <= i < 3 ==> jobs[i].jobType == jobType
    ensures jobs[0].title == "Senior " + role
    ensures jobs[1].title == role + " Lead"
    ensures jobs[2].title == "Staff " + role
    ensures forall i :: 0 <= i < 3 ==> Contains(jobs[i].description, role)
  {
    var d0 := "We are looking for an experienced " + role + " to join our team...";
    var d1 := "Exciting opportunity for a " + role + " professional...";
    var d2 := "Join our growing team as a " + role + "...";
    ContainsMiddle("We are looking for an experienced ", role, " to join our team...");
    ContainsMiddle("Exciting opportunity for a ", role, " professional...");
    ContainsMiddle("Join our growing team as a ", role, "...");
    [ Job("Senior " + role, "Tech Corp", "New York, NY", jobType, d0),
      Job(role + " Lead", "Innovation Labs", "San Francisco, CA", jobType, d1),
      Job("Staff " + role, "Future Systems", "Austin, TX", jobType, d2) ]
  }
}
