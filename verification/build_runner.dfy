/**
 `BuildRunner#run`: one review of one pull-request event. Two gates (an
 active repo with the payload's GitHub id; an opened or synchronized pull
 request), then a fixed sequence: validate the configuration and comment
 its errors, record one build, comment on the violations, and track one
 review per user of the repo. The world is the repos with their builds
 plus an ordered log of the outward calls.
 */
module BuildRunners {
  import opened Values
  import opened RepoConfigs
  import opened Violations

  /** The pull request action of the event. */
  datatype Action = Opened | Synchronize | OtherAction(name: string)

  /** The fields of the webhook payload the runner reads. */
  datatype Payload = Payload(githubRepoId: int, action: Action, pullRequestNumber: int, headSha: string)

  /** A persisted review: the violations found, for one pull request at one commit. */
  datatype Build = Build(violations: seq<Violation>, pullRequestNumber: int, commitSha: string)

  datatype Repo = Repo(githubId: int, fullGithubName: string, active: bool, users: seq<string>, builds: seq<Build>)

  /** The outward calls of a run, in the order they happen. */
  datatype Effect =
    | PullRequestComment(body: string)                   // pull_request.add_comment
    | BuildCreated(repoIndex: nat, build: Build)         // repo.builds.create!
    | ViolationsCommented(violations: seq<Violation>)    // commenter.comment_on_violations
    | ReviewTracked(user: string, repoName: string)      // Analytics.new(user).track_reviewed(repo)

  datatype World = World(repos: seq<Repo>, log: seq<Effect>)

  /**
   What the run obtains from its collaborators for this pull request: the
   head commit's configuration, the `invalid_config` translation, the
   `to_sentence` join, and the style checker's violations (computed once).
   */
  datatype Collaborators = Collaborators(
    config: RepoConfig,
    invalidConfig: string -> string,
    toSentence: seq<string> -> string,
    violations: seq<Violation>)

  predicate IsActiveWithId(repo: Repo, githubId: int) {
    repo.active && repo.githubId == githubId
  }

  /** `Repo.active.where(github_id: id).first`: the first active repo with that GitHub id. */
  function FindActiveRepo(repos: seq<Repo>, githubId: int): (r: Option<nat>)
    ensures r.Some? ==> r.value < |repos| && IsActiveWithId(repos[r.value], githubId)
    ensures r.Some? ==> forall j | 0 <= j < r.value :: !IsActiveWithId(repos[j], githubId)
    ensures r.None? <==> forall j | 0 <= j < |repos| :: !IsActiveWithId(repos[j], githubId)
  {
    if repos == [] then None
    else if IsActiveWithId(repos[0], githubId) then Some(0)
    else
      match FindActiveRepo(repos[1..], githubId)
      case None => None
      case Some(i) => Some(i + 1)
  }

  /** `relevant_pull_request?`. */
  predicate RelevantPullRequest(action: Action) {
    action.Opened? || action.Synchronize?
  }

  /** Both gates of `run` pass. */
  predicate Reviewed(w: World, payload: Payload) {
    FindActiveRepo(w.repos, payload.githubRepoId).Some? && RelevantPullRequest(payload.action)
  }

  /** The comment `validate_config` posts: one, holding all the errors joined, and only if there are any. */
  function ConfigErrorComments(errors: seq<string>, toSentence: seq<string> -> string): (r: seq<Effect>)
    ensures |r| == if errors == [] then 0 else 1
    ensures r != [] ==> r[0] == PullRequestComment(toSentence(errors))
  {
    if errors == [] then [] else [PullRequestComment(toSentence(errors))]
  }

  /** One review event per user, in the order of the repo's users. */
  function ReviewEffects(users: seq<string>, repoName: string): (r: seq<Effect>)
    ensures |r| == |users|
    ensures forall k | 0 <= k < |users| :: r[k] == ReviewTracked(users[k], repoName)
  {
    seq(|users|, k requires 0 <= k < |users| => ReviewTracked(users[k], repoName))
  }

  /** `repo.builds.create!`: exactly one build appended to that repo; every other repo is untouched. */
  function AppendBuild(repos: seq<Repo>, i: nat, build: Build): (r: seq<Repo>)
    requires i < |repos|
    ensures |r| == |repos|
    ensures r[i].builds == repos[i].builds + [build]
    ensures r[i].(builds := repos[i].builds) == repos[i]
    ensures forall j | 0 <= j < |repos| && j != i :: r[j] == repos[j]
  {
    repos[i := repos[i].(builds := repos[i].builds + [build])]
  }

  /** The number of builds recorded across all repos. */
  function TotalBuilds(repos: seq<Repo>): nat {
    if repos == [] then 0 else |repos[0].builds| + TotalBuilds(repos[1..])
  }

  /** A reviewed event records exactly one build in all. */
  lemma {:induction false} AppendBuildAddsOneBuild(repos: seq<Repo>, i: nat, build: Build)
    requires i < |repos|
    ensures TotalBuilds(AppendBuild(repos, i, build)) == TotalBuilds(repos) + 1
    decreases |repos|
  {
    var r := AppendBuild(repos, i, build);
    if i == 0 {
      assert r[1..] == repos[1..];
    } else {
      assert r[1..] == AppendBuild(repos[1..], i - 1, build);
      AppendBuildAddsOneBuild(repos[1..], i - 1, build);
    }
  }

  /**
   `validate_config`: validate the head commit's configuration (a fresh
   `RepoConfig`, so no earlier errors) and, when errors come back, post them
   as one comment. A raise in validation ends the run with the log unchanged.
   */
  method ValidateConfig(log: seq<Effect>, c: Collaborators) returns (log': seq<Effect>, raised: Option<Fault>)
    ensures raised.Some? <==> Validate(c.config, c.invalidConfig, []).Raise?
    ensures raised.Some? ==> raised.value == Validate(c.config, c.invalidConfig, []).fault && log' == log
    ensures raised.None? ==> log' == log + ConfigErrorComments(Validate(c.config, c.invalidConfig, []).value, c.toSentence)
  {
    match Validate(c.config, c.invalidConfig, [])
    case Raise(f) =>
      log', raised := log, Some(f);
    case Ok(errors) =>
      log', raised := log, None;
      if |errors| > 0 {
        log' := log' + [PullRequestComment(c.toSentence(errors))];
      }
  }

  /** `track_reviewed_repo_for_each_user`: one review event per user, in order, after what is already logged. */
  method TrackReviewedRepoForEachUser(log: seq<Effect>, repo: Repo) returns (log': seq<Effect>)
    ensures |log'| == |log| + |repo.users|
    ensures log'[..|log|] == log
    ensures forall k | 0 <= k < |repo.users| :: log'[|log| + k] == ReviewTracked(repo.users[k], repo.fullGithubName)
  {
    log' := log;
    var i := 0;
    while i < |repo.users|
      invariant 0 <= i <= |repo.users|
      invariant |log'| == |log| + i
      invariant log'[..|log|] == log
      invariant forall k | 0 <= k < i :: log'[|log| + k] == ReviewTracked(repo.users[k], repo.fullGithubName)
    {
      log' := log' + [ReviewTracked(repo.users[i], repo.fullGithubName)];
      i := i + 1;
    }
  }

  /**
   `run`. A failed gate leaves the world as it was. Otherwise, unless
   validation raises, the log grows by: the config-error comment (only when
   there are errors), the one new build, the violation comments with the same
   violations the build holds, and one review per user -- in that order.
   */
  method Run(w: World, payload: Payload, c: Collaborators) returns (w': World, raised: Option<Fault>)
    ensures FindActiveRepo(w.repos, payload.githubRepoId).None? ==> w' == w && raised.None?
    ensures !RelevantPullRequest(payload.action) ==> w' == w && raised.None?
    ensures Reviewed(w, payload) && Validate(c.config, c.invalidConfig, []).Raise? ==>
      w' == w && raised == Some(Validate(c.config, c.invalidConfig, []).fault)
    ensures Reviewed(w, payload) && Validate(c.config, c.invalidConfig, []).Ok? ==>
      var i := FindActiveRepo(w.repos, payload.githubRepoId).value;
      var build := Build(c.violations, payload.pullRequestNumber, payload.headSha);
      && raised.None?
      && w'.repos == AppendBuild(w.repos, i, build)
      && w'.log == w.log
                   + ConfigErrorComments(Validate(c.config, c.invalidConfig, []).value, c.toSentence)
                   + [BuildCreated(i, build), ViolationsCommented(c.violations)]
                   + ReviewEffects(w.repos[i].users, w.repos[i].fullGithubName)
  {
    var found := FindActiveRepo(w.repos, payload.githubRepoId);
    if found.None? || !RelevantPullRequest(payload.action) {
      return w, None;
    }
    var i := found.value;
    var log;
    log, raised := ValidateConfig(w.log, c);
    if raised.Some? {
      return w, raised;
    }
    var violations := c.violations;
    var build := Build(violations, payload.pullRequestNumber, payload.headSha);
    var repos := AppendBuild(w.repos, i, build);
    log := log + [BuildCreated(i, build)];
    log := log + [ViolationsCommented(violations)];
    var before := log;
    log := TrackReviewedRepoForEachUser(log, repos[i]);
    assert log == before + ReviewEffects(repos[i].users, repos[i].fullGithubName);
    w' := World(repos, log);
  }
}
