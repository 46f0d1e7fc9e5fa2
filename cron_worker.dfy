/**
 * The scheduled worker that warms the league tables and runs the two protected jobs.
 * Environment variables are optional strings; every network call is replaced by the reply
 * it produced (a status, or a thrown error such as the abort on timeout).
 */
module CronWorker {
  import opened Results
  import opened Text

  const DefaultLeagues: seq<string> := ["4328", "4329"]
  const FallbackBase: string := "https://ezrascores.pages.dev"
  const FixturesPath: string := "/api/v1/ezra/account/cron/fixtures"
  const SettlePath: string := "/api/v1/ezra/account/cron/settle"

  /** `String(value || "")` for an optional environment string. */
  function OrEmpty(value: Option<string>): string {
    match value
    case Some(s) => s
    case None => ""
  }

  /** Trims every piece. */
  function TrimAll(parts: seq<string>): (r: seq<string>)
    ensures |r| == |parts| && forall i :: 0 <= i < |parts| ==> r[i] == Trim(parts[i])
  {
    seq(|parts|, i requires 0 <= i < |parts| => Trim(parts[i]))
  }

  /** `filter(Boolean)` on strings: the non-empty ones, in order. */
  function NonEmpty(parts: seq<string>): (r: seq<string>)
    ensures forall x :: x in r <==> x in parts && x != ""
    ensures |r| <= |parts|
  {
    if parts == [] then []
    else (if parts[0] == "" then [] else [parts[0]]) + NonEmpty(parts[1..])
  }

  /** `splitCsv`: the comma-separated entries, trimmed, with the empty ones dropped. */
  function SplitCsv(value: Option<string>): (r: seq<string>)
    ensures forall x :: x in r ==> x != "" && Trimmed(x) && ',' !in x
  {
    var pieces := Split(OrEmpty(value), ',');
    NonEmpty(TrimAll(pieces))
  }

  /** A missing or empty setting lists nothing. */
  lemma SplitCsvOfNothing()
    ensures SplitCsv(None) == [] && SplitCsv(Some("")) == []
  {
    assert Split("", ',') == [""];
  }

  lemma {:induction false} NonEmptyKeepsAll(parts: seq<string>)
    requires forall i :: 0 <= i < |parts| ==> parts[i] != ""
    ensures NonEmpty(parts) == parts
  {
    if parts != [] {
      NonEmptyKeepsAll(parts[1..]);
    }
  }

  /** Entries written out with commas are read back trimmed, the blank ones dropped, the rest in order. */
  lemma SplitCsvOfJoin(items: seq<string>)
    requires |items| >= 1
    requires forall i :: 0 <= i < |items| ==> ',' !in items[i]
    ensures SplitCsv(Some(Join(items, ','))) == NonEmpty(TrimAll(items))
  {
    SplitJoin(items, ',');
  }

  /** Entries that are not blank are all read back, each trimmed. */
  lemma SplitCsvOfNonBlankJoin(items: seq<string>)
    requires |items| >= 1
    requires forall i :: 0 <= i < |items| ==> ',' !in items[i] && Trim(items[i]) != ""
    ensures SplitCsv(Some(Join(items, ','))) == TrimAll(items)
  {
    SplitCsvOfJoin(items);
    NonBlankKept(items);
  }

  lemma NonBlankKept(items: seq<string>)
    requires forall i :: 0 <= i < |items| ==> Trim(items[i]) != ""
    ensures NonEmpty(TrimAll(items)) == TrimAll(items)
  {
    NonEmptyKeepsAll(TrimAll(items));
  }

  /** An empty piece is filtered out wherever it stands. */
  lemma {:induction false} NonEmptyDropsBlank(parts: seq<string>, i: nat)
    requires i < |parts| && parts[i] == ""
    ensures NonEmpty(parts) == NonEmpty(parts[..i] + parts[i + 1..])
  {
    var rest := parts[..i] + parts[i + 1..];
    if i == 0 {
      assert rest == parts[1..];
    } else {
      NonEmptyDropsBlank(parts[1..], i - 1);
      assert rest[0] == parts[0];
      assert rest[1..] == parts[1..][..i - 1] + parts[1..][i..];
    }
  }

  /** Trimming commutes with removing one piece. */
  lemma TrimAllRemove(items: seq<string>, i: nat)
    requires i < |items|
    ensures TrimAll(items[..i] + items[i + 1..]) == TrimAll(items)[..i] + TrimAll(items)[i + 1..]
  {
    var rest := items[..i] + items[i + 1..];
    var t, u := TrimAll(items), TrimAll(rest);
    forall j | 0 <= j < i ensures u[j] == t[j] {
      assert rest[j] == items[j];
    }
    forall j | i <= j < |rest| ensures u[j] == t[j + 1] {
      assert rest[j] == items[j + 1];
    }
    RemoveAt(t, u, i);
  }

  /** A list that agrees with `t` before `i` and with `t` shifted by one from `i` on is `t` without position `i`. */
  lemma RemoveAt(t: seq<string>, u: seq<string>, i: nat)
    requires i < |t| && |u| == |t| - 1
    requires forall j :: 0 <= j < i ==> u[j] == t[j]
    requires forall j :: i <= j < |u| ==> u[j] == t[j + 1]
    ensures u == t[..i] + t[i + 1..]
  {
  }

  /** Dropping a piece that trims to nothing leaves the filtered, trimmed pieces unchanged. */
  lemma BlankPieceDropped(items: seq<string>, i: nat)
    requires i < |items| && Trim(items[i]) == ""
    ensures NonEmpty(TrimAll(items)) == NonEmpty(TrimAll(items[..i] + items[i + 1..]))
  {
    TrimAllRemove(items, i);
    NonEmptyDropsBlank(TrimAll(items), i);
  }

  /** A blank entry, however many spaces it holds, leaves no trace: removing it reads back the same list. */
  lemma BlankEntryDropped(items: seq<string>, i: nat)
    requires 2 <= |items| && i < |items|
    requires forall j :: 0 <= j < |items| ==> ',' !in items[j]
    requires Trim(items[i]) == ""
    ensures SplitCsv(Some(Join(items, ','))) == SplitCsv(Some(Join(items[..i] + items[i + 1..], ',')))
  {
    var rest := items[..i] + items[i + 1..];
    CommaFreeRemove(items, i);
    SplitCsvOfJoin(items);
    SplitCsvOfJoin(rest);
    BlankPieceDropped(items, i);
  }

  /** No entry holds a comma. */
  predicate CommaFree(items: seq<string>) {
    forall j :: 0 <= j < |items| ==> ',' !in items[j]
  }

  lemma CommaFreeRemove(items: seq<string>, i: nat)
    requires i < |items| && CommaFree(items)
    ensures CommaFree(items[..i] + items[i + 1..])
  {
    var rest := items[..i] + items[i + 1..];
    forall j | 0 <= j < |rest| ensures ',' !in rest[j] {
      if j < i { assert rest[j] == items[j]; } else { assert rest[j] == items[j + 1]; }
    }
  }

  /** Entries already clean are read back exactly. */
  lemma SplitCsvOfCleanJoin(items: seq<string>)
    requires |items| >= 1
    requires forall i :: 0 <= i < |items| ==> items[i] != "" && Trimmed(items[i]) && ',' !in items[i]
    ensures SplitCsv(Some(Join(items, ','))) == items
  {
    forall i | 0 <= i < |items| ensures Trim(items[i]) == items[i] {
      TrimTrimmed(items[i]);
    }
    SplitCsvOfNonBlankJoin(items);
  }

  /** `replace(/\/+$/, "")`: drops the run of slashes at the end. */
  function DropTrailingSlashes(s: string): (r: string)
    ensures SlashRunDropped(s, r)
  {
    if s != [] && s[|s| - 1] == '/' then DropTrailingSlashes(s[..|s| - 1]) else s
  }

  /** `r` is `s` up to a final run of slashes, and does not itself end in a slash. */
  predicate SlashRunDropped(s: string, r: string) {
    && |r| <= |s| && r == s[..|r|]
    && (forall i :: |r| <= i < |s| ==> s[i] == '/')
    && (r == [] || r[|r| - 1] != '/')
  }

  /** `String(url || fallback).trim()`; the fallback has no white space to trim. */
  function ConfiguredBase(url: Option<string>): string {
    if OrEmpty(url) != "" then Trim(OrEmpty(url)) else FallbackBase
  }

  /** `normalizeBase`: the configured base (or the fallback when unset or empty), trimmed, without trailing slashes. */
  function NormalizeBase(url: Option<string>): (r: string)
    ensures SlashRunDropped(ConfiguredBase(url), r)
  {
    DropTrailingSlashes(ConfiguredBase(url))
  }

  /** With nothing configured, the tables are warmed on the public site. */
  lemma NormalizeBaseDefault()
    ensures NormalizeBase(None) == FallbackBase
    ensures NormalizeBase(Some("")) == FallbackBase
  {
  }

  /** A clean base is kept, and any number of slashes after it are dropped. */
  lemma {:induction false} NormalizeBaseDropsSlashes(base: string, slashes: nat)
    requires base != [] && Trimmed(base) && base[|base| - 1] != '/'
    ensures NormalizeBase(Some(base + seq(slashes, _ => '/'))) == base
    decreases slashes
  {
    var s := base + seq(slashes, _ => '/');
    assert Trimmed(s);
    TrimTrimmed(s);
    DropSlashRun(base, slashes);
  }

  lemma {:induction false} DropSlashRun(base: string, slashes: nat)
    requires base == [] || base[|base| - 1] != '/'
    ensures DropTrailingSlashes(base + seq(slashes, _ => '/')) == base
    decreases slashes
  {
    if slashes > 0 {
      var s := base + seq(slashes, _ => '/');
      assert s[..|s| - 1] == base + seq(slashes - 1, _ => '/');
      DropSlashRun(base, slashes - 1);
    } else {
      assert base + seq(0, _ => '/') == base;
    }
  }

  /** The worker's settings. */
  datatype Env = Env(pagesBaseUrl: Option<string>, tableLeagues: Option<string>)

  /** The default league ids are non-empty and hold no comma. */
  lemma DefaultLeaguesClean()
    ensures forall x :: x in DefaultLeagues ==> x != "" && ',' !in x
  {
    forall x | x in DefaultLeagues ensures x != "" && ',' !in x {
      assert x == "4328" || x == "4329";
      assert |x| == 4 && forall i :: 0 <= i < 4 ==> '0' <= x[i] <= '9';
    }
  }

  /** The leagues to warm: the configured list, or the two default leagues when it lists none. */
  function Leagues(env: Env): (r: seq<string>)
    ensures r != [] && forall x :: x in r ==> x != "" && ',' !in x
    ensures SplitCsv(env.tableLeagues) != [] ==> r == SplitCsv(env.tableLeagues)
    ensures SplitCsv(env.tableLeagues) == [] ==> r == DefaultLeagues
  {
    var configured := SplitCsv(env.tableLeagues);
    DefaultLeaguesClean();
    if |configured| > 0 then configured else DefaultLeagues
  }

  /** What one request came back with: an HTTP status, or an error thrown by `fetch` (abort included). */
  datatype Reply = Responded(status: int) | Threw

  /** `res.ok`; a thrown request is never ok. */
  predicate ReplyOk(r: Reply) {
    r.Responded? && 200 <= r.status <= 299
  }

  /** The status recorded for a reply: 0 for a thrown request. */
  function StatusOf(r: Reply): (s: int)
    ensures r.Threw? ==> s == 0
    ensures ReplyOk(r) ==> s == r.status
  {
    match r
    case Responded(status) => status
    case Threw => 0
  }

  datatype LeagueResult = LeagueResult(ok: bool, status: int, leagueId: string)
  datatype WarmResult = WarmResult(ok: bool, baseUrl: string, results: seq<LeagueResult>)
  datatype CronResult = CronResult(ok: bool, status: int, url: string)
  datatype JobsResult = JobsResult(ok: bool, tables: WarmResult, fixtures: CronResult, settle: CronResult)

  /** `results.every((r) => r.ok)`. */
  function AllOk(results: seq<LeagueResult>): (b: bool)
    ensures b <==> forall i :: 0 <= i < |results| ==> results[i].ok
  {
    if results == [] then true else results[0].ok && AllOk(results[1..])
  }

  /** The per-league results of `warmTables`, in the order of the leagues. */
  function LeagueResults(leagues: seq<string>, reply: string -> Reply): (rs: seq<LeagueResult>)
    ensures |rs| == |leagues|
    ensures forall i :: 0 <= i < |rs| ==> rs[i].leagueId == leagues[i] && (rs[i].ok <==> ReplyOk(reply(leagues[i])))
  {
    seq(|leagues|, i requires 0 <= i < |leagues| =>
      LeagueResult(ReplyOk(reply(leagues[i])), StatusOf(reply(leagues[i])), leagues[i]))
  }

  /** `warmTables`: one result per league, in order; ok when every league answered ok. */
  function WarmTables(env: Env, reply: string -> Reply): (w: WarmResult)
    ensures w.results == LeagueResults(Leagues(env), reply)
    ensures w.ok <==> forall id :: id in Leagues(env) ==> ReplyOk(reply(id))
    ensures w.baseUrl == NormalizeBase(env.pagesBaseUrl)
  {
    var leagues := Leagues(env);
    var results := LeagueResults(leagues, reply);
    assert AllOk(results) <==> forall id :: id in leagues ==> ReplyOk(reply(id)) by {
      if AllOk(results) {
        forall id | id in leagues ensures ReplyOk(reply(id)) {
          var i :| 0 <= i < |leagues| && leagues[i] == id;
          assert results[i].ok;
        }
      }
    }
    WarmResult(AllOk(results), NormalizeBase(env.pagesBaseUrl), results)
  }

  /** `runProtectedCron`: a POST to the path under the base; ok when the reply was ok. */
  function RunProtectedCron(env: Env, path: string, reply: Reply): (c: CronResult)
    ensures c.ok <==> ReplyOk(reply)
    ensures c.url == NormalizeBase(env.pagesBaseUrl) + path
    ensures reply.Threw? ==> c.status == 0
  {
    CronResult(ReplyOk(reply), StatusOf(reply), NormalizeBase(env.pagesBaseUrl) + path)
  }

  /** `runJobs`: the three jobs; ok only when all three are. */
  function RunJobs(env: Env, tableReply: string -> Reply, fixturesReply: Reply, settleReply: Reply): (j: JobsResult)
    ensures j.ok <==> j.tables.ok && j.fixtures.ok && j.settle.ok
    ensures j.fixtures.url == NormalizeBase(env.pagesBaseUrl) + FixturesPath
    ensures j.settle.url == NormalizeBase(env.pagesBaseUrl) + SettlePath
  {
    var tables := WarmTables(env, tableReply);
    var fixtures := RunProtectedCron(env, FixturesPath, fixturesReply);
    var settle := RunProtectedCron(env, SettlePath, settleReply);
    JobsResult(tables.ok && fixtures.ok && settle.ok, tables, fixtures, settle)
  }

  /** The worker's HTTP answer: the health check, or the jobs' report. */
  datatype Response = Health | Report(status: int, jobs: JobsResult)

  /** `fetch`: "/health" answers "ok" without running anything; any other path runs the jobs, 200 or 502. */
  function Fetch(pathname: string, env: Env, tableReply: string -> Reply, fixturesReply: Reply, settleReply: Reply): (r: Response)
    ensures pathname == "/health" <==> r.Health?
    ensures r.Report? ==> r.jobs == RunJobs(env, tableReply, fixturesReply, settleReply)
    ensures r.Report? ==> (r.status == 200 <==> r.jobs.ok) && (r.status == 502 <==> !r.jobs.ok)
  {
    if pathname == "/health" then Health
    else
      var jobs := RunJobs(env, tableReply, fixturesReply, settleReply);
      Report(if jobs.ok then 200 else 502, jobs)
  }

  /** The report is 200 exactly when every league and both protected jobs answered with a 2xx status. */
  lemma FetchSucceedsIffEveryRequestOk(pathname: string, env: Env, tableReply: string -> Reply, fixturesReply: Reply, settleReply: Reply)
    requires pathname != "/health"
    ensures Fetch(pathname, env, tableReply, fixturesReply, settleReply).status == 200 <==>
      (forall id :: id in Leagues(env) ==> ReplyOk(tableReply(id))) && ReplyOk(fixturesReply) && ReplyOk(settleReply)
  {
  }

  /** With no leagues configured, the worker warms the two default leagues. */
  lemma UnsetLeaguesAreDefault(env: Env)
    requires env.tableLeagues.None?
    ensures Leagues(env) == DefaultLeagues
  {
    SplitCsvOfNothing();
  }

  /** With no leagues configured, a failed warm-up of either default league makes the run fail. */
  lemma DefaultLeagueFailureFails(env: Env, tableReply: string -> Reply, fixturesReply: Reply, settleReply: Reply)
    requires env.tableLeagues.None?
    requires !ReplyOk(tableReply("4328")) || !ReplyOk(tableReply("4329"))
    ensures Fetch("/", env, tableReply, fixturesReply, settleReply).status == 502
  {
    UnsetLeaguesAreDefault(env);
    assert DefaultLeagues[0] == "4328" && DefaultLeagues[1] == "4329";
    assert !WarmTables(env, tableReply).ok;
    assert |"/"| != |"/health"|;
  }
}
