/** What a PostgreSQL server, the wire to it and the client's connection may do with one command.
    `Server` is the server after it has dealt with everything it will ever receive on the connection,
    so a verdict about it cannot be overturned by a command still under way. */
module TransactionServer {
  /** Gone: the server has ended the session and will execute nothing more on it. */
  datatype Transaction = Idle | Open | Broken | Gone

  datatype Server = Server(transaction: Transaction, commits: nat)

  datatype Command =
    | Setting(sql: string)
    | Begin(readOnly: bool)
    | SearchPath(schema: string)
    | Script(sql: string)
    | Commit
    | Rollback

  /** A fatal refusal ends the session. */
  datatype Reply = Complete(tag: string) | Refused(fatal: bool)

  datatype Failure = NoFailure | ServerError | TransportError

  /** What the connection shows once a command has returned; `status` is the transaction status of the
      last ReadyForQuery message. */
  datatype Answer = Answer(tag: string, failure: Failure, status: char, closed: bool)

  function Letter(t: Transaction): char {
    match t
    case Idle => 'I'
    case Open => 'T'
    case Broken => 'E'
    case Gone => '?'
  }

  /** The honest server. A script has been validated, so it contains no transaction control: inside a
      transaction it commits nothing, outside one every statement of it commits on its own. */
  predicate Executes(s: Server, c: Command, t: Server, r: Reply) {
    if s.transaction.Gone? then false
    else if r == Refused(true) then
      t.transaction.Gone? && s.commits <= t.commits &&
      ((c.Script? && s.transaction.Idle?)
       || t.commits <= s.commits + (if c.Commit? && s.transaction.Open? then 1 else 0))
    else
      match c
      case Begin(_) =>
        if s.transaction.Broken? || r.Refused? then r.Refused? && t == s
        else r.tag == "BEGIN" && t == s.(transaction := Open)
      case Rollback =>
        r == Complete("ROLLBACK") && t == s.(transaction := Idle)
      case Commit =>
        if r.Refused? then s.transaction.Open? && t == s.(transaction := Idle)
        else if s.transaction.Broken? then r.tag == "ROLLBACK" && t == s.(transaction := Idle)
        else r.tag == "COMMIT" && t == Server(Idle, if s.transaction.Open? then s.commits + 1 else s.commits)
      case _ =>
        if s.transaction.Idle? then t.transaction.Idle? && (if c.Script? then s.commits <= t.commits else t.commits == s.commits)
        else if s.transaction.Broken? then r.Refused? && t == s
        else if r.Refused? then t == s.(transaction := Broken)
        else t == s
  }

  /** The command never reaches the server, and so nothing sent after it does. */
  predicate Unheard(s: Server, status: char, t: Server, a: Answer) {
    t == s.(transaction := Gone) && a.tag == "" && a.failure.TransportError? && a.status == status
  }

  /** How much of a reply reaches the client: nothing, the first message, or ReadyForQuery too. The
      connection may close at any moment, and closes on a fatal refusal. */
  predicate Delivered(r: Reply, t: Server, status: char, a: Answer) {
    || (a.tag == "" && a.failure.TransportError? && a.status == status)
    || (r.Complete? && a.tag == r.tag && !a.failure.ServerError?
        && (a.status == Letter(t.transaction) || (a.status == status && a.failure.TransportError?)))
    || (r.Refused? && a.tag == "" && a.failure.ServerError? && (r.fatal ==> a.closed)
        && (a.status == status || (!r.fatal && a.status == Letter(t.transaction))))
  }

  ghost predicate Behaves(s: Server, status: char, c: Command, t: Server, a: Answer) {
    Unheard(s, status, t, a) || exists r :: Executes(s, c, t, r) && Delivered(r, t, status, a)
  }

  /** Only a COMMIT in an open transaction, or a script outside one, commits anything. */
  lemma OnlyCommitCommits(s: Server, status: char, c: Command, t: Server, a: Answer)
    requires Behaves(s, status, c, t, a)
    requires !(c.Script? && s.transaction.Idle?)
    ensures !(c.Commit? && s.transaction.Open?) ==> t.commits == s.commits
  {
  }

  /** A COMMIT tag with an idle transaction settles the COMMIT of an open transaction; so does a
      ROLLBACK tag, or an error that leaves the connection open. */
  lemma CommitIsSettled(s: Server, t: Server, a: Answer)
    requires Behaves(s, 'T', Commit, t, a) && s.transaction.Open?
    ensures a.tag == "COMMIT" ==> t.commits == s.commits + 1
    ensures a.tag == "ROLLBACK" || (a.failure.ServerError? && !a.closed) ==> t.commits == s.commits
  {
  }

  /** After an unacknowledged COMMIT, a ROLLBACK may succeed whether or not the COMMIT did. */
  lemma RollbackSettlesNothing(s: Server, committed: bool) returns (t: Server, u: Server)
    requires s.transaction.Open?
    ensures Behaves(s, 'T', Commit, t, Answer("", TransportError, 'T', false))
    ensures Behaves(t, 'T', Rollback, u, Answer("ROLLBACK", NoFailure, 'I', false))
    ensures u.commits == s.commits + if committed then 1 else 0
  {
    var r := if committed then Complete("COMMIT") else Refused(false);
    t := Server(Idle, if committed then s.commits + 1 else s.commits);
    assert Executes(s, Commit, t, r);
    u := t;
    assert Executes(t, Rollback, u, Complete("ROLLBACK"));
    assert Delivered(Complete("ROLLBACK"), u, 'T', Answer("ROLLBACK", NoFailure, 'I', false));
  }
}
