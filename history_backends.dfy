/** The storage backends of the price history (price_history.py): a local
    JSON file, a file in a GitHub repository written through the contents
    API, and a backend that stores nothing. The HTTP server is an oracle:
    the status it answers to each PUT and the sha it gives the file after
    an accepted PUT are fixed functions of the request's position. */
module HistoryBackends {
  import opened Wrappers
  import opened Chars
  import opened Strings
  import opened HistoryDocs

  datatype BackendKind = LocalJson | GithubJson | NoOp

  /** `create_history_service`'s choice from `PRICE_HISTORY_BACKEND` (taken
      stripped and lower-cased), `GITHUB_TOKEN` and `GITHUB_REPO`: GitHub
      when asked for and both credentials are set; the local file when the
      setting is "local" or empty; otherwise, including "github" without
      credentials, the backend that stores nothing. */
  function ChooseBackend(setting: string, token: string, repo: string): (k: BackendKind)
    ensures var s := Strip(Lower(setting), IsPySpace);
      && (k == GithubJson <==> s == "github" && token != "" && repo != "")
      && (k == LocalJson <==> s == "local" || s == "")
  {
    var s := Strip(Lower(setting), IsPySpace);
    if s == "github" && token != "" && repo != "" then GithubJson
    else if s == "local" || s == "" then LocalJson
    else NoOp
  }

  /** The body of a PUT to the contents API: the document to store and the
      `sha` member (missing, `null`, or the blob sha being replaced). */
  datatype PutBody = PutBody(content: Doc, sha: Field<string>)

  /** Statuses the GitHub backend counts as a successful write. */
  predicate Accepted(status: int) {
    status == 200 || status == 201
  }

  /** HTTP 409 Conflict (section 15.5.10 of RFC 9110): the sha sent is not
      the file's current one. */
  const Conflict: int := 409

  /** A sha member is sent with the first PUT only when it is truthy. */
  function FirstSha(sha: Field<string>): (r: Field<string>)
    ensures r.Present? <==> sha.Present? && sha.value != ""
    ensures r.Present? ==> r == sha
  {
    if sha.Present? && sha.value != "" then sha else Absent
  }

  /** The retry sends the sha re-read from the server, `null` when there is none. */
  function RetrySha(latest: Doc): (r: Field<string>)
    ensures r != Absent
    ensures latest.githubSha.Present? ==> r == latest.githubSha
  {
    if latest.githubSha.Present? then latest.githubSha else Null
  }

  /** The outcome of a write to GitHub whose first PUT is the `n`-th request
      the server sees: whether it succeeded and how many PUTs it sent. */
  datatype WriteOutcome = WriteOutcome(ok: bool, requests: nat)

  function GithubOutcome(status: nat -> int, n: nat): (r: WriteOutcome)
    ensures 1 <= r.requests <= 2
    ensures r.requests == 2 <==> status(n) == Conflict
    ensures r.ok <==> Accepted(status(n)) || (status(n) == Conflict && Accepted(status(n + 1)))
  {
    if Accepted(status(n)) then WriteOutcome(true, 1)
    else if status(n) == Conflict then WriteOutcome(Accepted(status(n + 1)), 2)
    else WriteOutcome(false, 1)
  }

  class HistoryBackend {
    const kind: BackendKind
    /** The stored document: the JSON file, or the repository file's
        content; `None` when there is no such file. */
    var stored: Option<Doc>
    /** The blob sha the contents API reports for the repository file. */
    var remoteSha: Option<string>
    /** Every PUT sent to the contents API, in order. */
    var puts: seq<PutBody>
    /** The status the server answers to the n-th PUT. */
    const status: nat -> int
    /** The sha the server gives the file when it accepts the n-th PUT. */
    const shaAfter: nat -> string

    constructor (kind: BackendKind, stored: Option<Doc>, remoteSha: Option<string>,
                 status: nat -> int, shaAfter: nat -> string)
      ensures this.kind == kind && this.stored == stored && this.remoteSha == remoteSha
      ensures this.status == status && this.shaAfter == shaAfter && puts == []
    {
      this.kind := kind;
      this.stored := stored;
      this.remoteSha := remoteSha;
      this.status := status;
      this.shaAfter := shaAfter;
      puts := [];
    }

    /** The backend's `name`. */
    function Name(): string {
      match kind
      case LocalJson => "local-json"
      case GithubJson => "github-json"
      case NoOp => "noop"
    }

    /** `read()`: `{}` when there is nothing stored (and always for the
        no-op backend); the GitHub backend adds the file's sha as
        `_github_sha`. */
    function Read(): (raw: Doc)
      reads this
      ensures kind == NoOp || stored.None? ==> raw == EmptyDoc
      ensures kind == LocalJson && stored.Some? ==> raw == stored.value
      ensures kind == GithubJson && stored.Some? ==>
        raw == stored.value.(githubSha := if remoteSha.Some? then Present(remoteSha.value) else Null)
    {
      match kind
      case NoOp => EmptyDoc
      case LocalJson => if stored.Some? then stored.value else EmptyDoc
      case GithubJson =>
        if stored.Some? then
          stored.value.(githubSha := if remoteSha.Some? then Present(remoteSha.value) else Null)
        else EmptyDoc
    }

    /** One PUT to the contents API; an accepted one replaces the file. */
    method Put(body: PutBody) returns (code: int)
      modifies this
      ensures puts == old(puts) + [body]
      ensures code == status(|old(puts)|)
      ensures Accepted(code) ==> stored == Some(body.content) && remoteSha == Some(shaAfter(|old(puts)|))
      ensures !Accepted(code) ==> stored == old(stored) && remoteSha == old(remoteSha)
    {
      code := status(|puts|);
      if Accepted(code) {
        stored := Some(body.content);
        remoteSha := Some(shaAfter(|puts|));
      }
      puts := puts + [body];
    }

    /** `write(payload)`. The local backend stores the document and succeeds;
        the no-op backend does nothing and fails. The GitHub backend removes
        `_github_sha` from the payload, sends one PUT carrying that sha when
        it is truthy, and on a 409 re-reads the file's sha and sends exactly
        one more PUT with it. */
    method Write(doc: HistoryDoc) returns (ok: bool)
      modifies this, doc
      ensures kind == NoOp ==> !ok && unchanged(this) && unchanged(doc)
      ensures kind == LocalJson ==>
        ok && stored == Some(old(doc.Value())) && remoteSha == old(remoteSha) && puts == old(puts)
        && unchanged(doc)
      ensures kind == GithubJson ==>
        var n := |old(puts)|;
        var content := old(doc.Value()).(githubSha := Absent);
        var outcome := GithubOutcome(status, n);
        && doc.Value() == content
        && ok == outcome.ok
        && |puts| == n + outcome.requests
        && puts[..n] == old(puts)
        && puts[n] == PutBody(content, FirstSha(old(doc.githubSha)))
        && (outcome.requests == 2 ==> puts[n + 1] == PutBody(content, RetrySha(old(Read()))))
        && (ok ==> stored == Some(content) && remoteSha == Some(shaAfter(|puts| - 1)))
        && (!ok ==> stored == old(stored) && remoteSha == old(remoteSha))
    {
      match kind {
        case NoOp =>
          ok := false;
        case LocalJson =>
          stored := Some(doc.Value());
          ok := true;
        case GithubJson =>
          var sha := doc.githubSha;
          doc.githubSha := Absent;
          var body := PutBody(doc.Value(), FirstSha(sha));
          var code := Put(body);
          if Accepted(code) {
            ok := true;
          } else if code == Conflict {
            var latest := Read();
            body := body.(sha := RetrySha(latest));
            code := Put(body);
            ok := Accepted(code);
          } else {
            ok := false;
          }
      }
    }
  }
}
