/** Users, their questions and the id pool, over serial runs; the SHA-256 digest is a parameter. */
module Accounts {
  import opened Wrappers

  type Sha = string -> string

  datatype User = User(tid: int, email: string, password: string)

  /** A question record; `question` is the serialised question and answer, absent if the user gave none. */
  datatype Question = Question(uid: int, question: Option<string>)

  /** `tokens` are the users with an access token in the cache. */
  datatype Store = Store(pool: Option<int>, users: seq<User>, questions: seq<Question>, tokens: set<int>)

  const EMPTY := Store(None, [], [], {})

  /** What a missing question serialises to: the two-character string `{}`, quoted. */
  const NO_QUESTION := "\"{}\""

  datatype AccountError = HasSameUser | TidOrPasswordError | AnswerError

  // Commands

  /** The rank of the first user of the given id, or the number of users. */
  function FindTid(users: seq<User>, tid: int): (k: nat)
    ensures k <= |users| && (k < |users| ==> users[k].tid == tid)
    ensures forall i | 0 <= i < k :: users[i].tid != tid
  {
    FirstMatch(users, (user: User) => user.tid == tid)
  }

  /** The rank of the first user of the given id and stored password, or the number of users. */
  function FindCredentials(users: seq<User>, tid: int, password: string): (k: nat)
    ensures k <= |users| && (k < |users| ==> users[k].tid == tid && users[k].password == password)
    ensures forall i | 0 <= i < k :: !(users[i].tid == tid && users[i].password == password)
  {
    FirstMatch(users, (user: User) => user.tid == tid && user.password == password)
  }

  predicate EmailTaken(users: seq<User>, email: string) {
    exists i | 0 <= i < |users| :: users[i].email == email
  }

  /** The rank of the first question record of the given user, or the number of records. */
  function FindQuestion(questions: seq<Question>, uid: int): (k: nat)
    ensures k <= |questions| && (k < |questions| ==> questions[k].uid == uid)
    ensures forall i | 0 <= i < k :: questions[i].uid != uid
  {
    FirstMatch(questions, (record: Question) => record.uid == uid)
  }

  function QuestionText(questions: seq<Question>, uid: int): string {
    var k := FindQuestion(questions, uid);
    if k < |questions| && questions[k].question.Some? then questions[k].question.value else NO_QUESTION
  }

  function SetPassword(users: seq<User>, k: nat, digest: string): seq<User> {
    if k < |users| then users[k := users[k].(password := digest)] else users
  }

  function PoolValue(s: Store): int {
    if s.pool.Some? then s.pool.value else 0
  }

  // Operations

  datatype Op =
    | Registe(email: string, password: string, question: Option<string>)
    | Login(tid: int, password: string)
    | ChangePassWord(tid: int, oldPwd: string, newPwd: string)
    | ForgetPassword(tid: int, answer: string, newPwd: string)

  function Register(s: Store, sha: Sha, email: string, password: string, question: Option<string>)
    : (Result<int, AccountError>, Store)
  {
    var tid := PoolValue(s) + 1;
    if EmailTaken(s.users, email) then (Err(HasSameUser), s)
    else (Ok(tid), Store(Some(tid), s.users + [User(tid, email, sha(password))],
                         s.questions + [Question(tid, question)], s.tokens))
  }

  function LogIn(s: Store, sha: Sha, tid: int, password: string): (Result<int, AccountError>, Store) {
    if FindCredentials(s.users, tid, sha(password)) == |s.users| then (Err(TidOrPasswordError), s)
    else (Ok(tid), s.(tokens := s.tokens + {tid}))
  }

  /** The old password is compared with the stored digest as it comes; the token goes in any case. */
  function Change(s: Store, sha: Sha, tid: int, oldPwd: string, newPwd: string): Store {
    var k := FindCredentials(s.users, tid, oldPwd);
    s.(users := SetPassword(s.users, k, sha(newPwd)), tokens := s.tokens - {tid})
  }

  function Forget(s: Store, sha: Sha, tid: int, answer: string, newPwd: string): (Result<bool, AccountError>, Store) {
    if QuestionText(s.questions, tid) != answer then (Err(AnswerError), s)
    else (Ok(true), s.(users := SetPassword(s.users, FindTid(s.users, tid), sha(newPwd)), tokens := s.tokens - {tid}))
  }

  function Step(s: Store, sha: Sha, op: Op): Store {
    match op
    case Registe(email, password, question) => Register(s, sha, email, password, question).1
    case Login(tid, password) => LogIn(s, sha, tid, password).1
    case ChangePassWord(tid, oldPwd, newPwd) => Change(s, sha, tid, oldPwd, newPwd)
    case ForgetPassword(tid, answer, newPwd) => Forget(s, sha, tid, answer, newPwd).1
  }

  /** The store after a serial run from nothing. */
  function Serve(sha: Sha, ops: seq<Op>): Store {
    if ops == [] then EMPTY else Step(Serve(sha, ops[..|ops| - 1]), sha, ops[|ops| - 1])
  }

  // What the store should be, told from the history of requests alone

  /** The emails registered, in order: each the first time it is asked for. */
  function Emails(ops: seq<Op>): seq<string> {
    if ops == [] then [] else
      var before, op := Emails(ops[..|ops| - 1]), ops[|ops| - 1];
      if op.Registe? && op.email !in before then before + [op.email] else before
  }

  /** The question of each registered user, in order. */
  function Answers(ops: seq<Op>): (answers: seq<Option<string>>)
    ensures |answers| == |Emails(ops)|
  {
    if ops == [] then [] else
      var before, op := Answers(ops[..|ops| - 1]), ops[|ops| - 1];
      if op.Registe? && op.email !in Emails(ops[..|ops| - 1]) then before + [op.question] else before
  }

  predicate Registered(ops: seq<Op>, tid: int) {
    1 <= tid <= |Emails(ops)|
  }

  /** What a user has to answer; for users without a question, and for nobody at all, the quoted `{}`. */
  function Answer(ops: seq<Op>, tid: int): string {
    if Registered(ops, tid) && Answers(ops)[tid - 1].Some? then Answers(ops)[tid - 1].value else "\"{}\""
  }

  /** The password of the last update of the user that took effect: registration, a reset with the right answer, or a
      change whose old password is the digest of the one before. */
  function Secret(sha: Sha, ops: seq<Op>, tid: int): string
    requires Registered(ops, tid)
  {
    var before, op := ops[..|ops| - 1], ops[|ops| - 1];
    if !Registered(before, tid) then op.password
    else
      var secret := Secret(sha, before, tid);
      if op.ForgetPassword? && op.tid == tid && op.answer == Answer(before, tid) then op.newPwd
      else if op.ChangePassWord? && op.tid == tid && op.oldPwd == sha(secret) then op.newPwd
      else secret
  }

  /** The store agrees with the history: ids 1 to n in order, one question record for each. */
  ghost predicate Agrees(sha: Sha, ops: seq<Op>, s: Store) {
    var n := |Emails(ops)|;
    && PoolValue(s) == n && |s.users| == n && |s.questions| == n
    && (forall i | 0 <= i < n ::
          && s.users[i] == User(i + 1, Emails(ops)[i], sha(Secret(sha, ops, i + 1)))
          && s.questions[i] == Question(i + 1, Answers(ops)[i]))
  }

  lemma {:induction false} EmailsDistinct(ops: seq<Op>)
    ensures forall i, j | 0 <= i < j < |Emails(ops)| :: Emails(ops)[i] != Emails(ops)[j]
  {
    if ops != [] { EmailsDistinct(ops[..|ops| - 1]); }
  }

  lemma AgreesFindTid(sha: Sha, ops: seq<Op>, s: Store, tid: int)
    requires Agrees(sha, ops, s)
    ensures FindTid(s.users, tid) == if Registered(ops, tid) then tid - 1 else |s.users|
    ensures FindQuestion(s.questions, tid) == if Registered(ops, tid) then tid - 1 else |s.users|
  {
    var k, q := FindTid(s.users, tid), FindQuestion(s.questions, tid);
    if Registered(ops, tid) {
      assert s.users[tid - 1].tid == tid && s.questions[tid - 1].uid == tid;
    }
    assert k < |s.users| ==> s.users[k].tid == k + 1;
    assert q < |s.questions| ==> s.questions[q].uid == q + 1;
  }

  lemma AgreesCredentials(sha: Sha, ops: seq<Op>, s: Store, tid: int, password: string)
    requires Agrees(sha, ops, s)
    ensures FindCredentials(s.users, tid, password) ==
            if Registered(ops, tid) && password == sha(Secret(sha, ops, tid)) then tid - 1 else |s.users|
  {
    var k := FindCredentials(s.users, tid, password);
    if Registered(ops, tid) {
      assert s.users[tid - 1].tid == tid && s.users[tid - 1].password == sha(Secret(sha, ops, tid));
    }
    assert k < |s.users| ==> s.users[k].tid == k + 1 && s.users[k].password == sha(Secret(sha, ops, k + 1));
  }

  lemma AgreesEmail(sha: Sha, ops: seq<Op>, s: Store, email: string)
    requires Agrees(sha, ops, s)
    ensures EmailTaken(s.users, email) <==> email in Emails(ops)
  {
  }

  /** A registration extends the history's lists, or leaves them. */
  lemma AgreesRegister(sha: Sha, ops: seq<Op>, s: Store, op: Op)
    requires Agrees(sha, ops, s) && op.Registe?
    ensures Agrees(sha, ops + [op], Step(s, sha, op))
  {
  }

  lemma SecretStep(sha: Sha, ops: seq<Op>, op: Op, tid: int)
    requires Registered(ops, tid)
    ensures Registered(ops + [op], tid)
    ensures Secret(sha, ops + [op], tid) ==
            if op.ForgetPassword? && op.tid == tid && op.answer == Answer(ops, tid) then op.newPwd
            else if op.ChangePassWord? && op.tid == tid && op.oldPwd == sha(Secret(sha, ops, tid)) then op.newPwd
            else Secret(sha, ops, tid)
  {
  }

  ghost predicate SameSecret(sha: Sha, ops: seq<Op>, op: Op, tid: int) {
    Registered(ops, tid) && Registered(ops + [op], tid) && Secret(sha, ops + [op], tid) == Secret(sha, ops, tid)
  }

  /** A step that sets the password at rank k, if there is one, agrees if the history moves that secret and no other. */
  lemma AgreesSet(sha: Sha, ops: seq<Op>, s: Store, op: Op, k: nat, digest: string, tokens: set<int>)
    requires Agrees(sha, ops, s) && !op.Registe?
    requires forall tid | Registered(ops, tid) && tid != k + 1 :: SameSecret(sha, ops, op, tid)
    requires k < |Emails(ops)| ==> Registered(ops + [op], k + 1) && digest == sha(Secret(sha, ops + [op], k + 1))
    ensures Agrees(sha, ops + [op], s.(users := SetPassword(s.users, k, digest), tokens := tokens))
  {
  }

  lemma AgreesLogin(sha: Sha, ops: seq<Op>, s: Store, op: Op)
    requires Agrees(sha, ops, s) && op.Login?
    ensures Agrees(sha, ops + [op], Step(s, sha, op))
  {
  }

  lemma AgreesChange(sha: Sha, ops: seq<Op>, s: Store, op: Op)
    requires Agrees(sha, ops, s) && op.ChangePassWord?
    ensures Agrees(sha, ops + [op], Step(s, sha, op))
  {
    var k := FindCredentials(s.users, op.tid, op.oldPwd);
    AgreesCredentials(sha, ops, s, op.tid, op.oldPwd);
    forall tid | Registered(ops, tid) && tid != k + 1 ensures SameSecret(sha, ops, op, tid) {
      SecretStep(sha, ops, op, tid);
    }
    if Registered(ops, op.tid) { SecretStep(sha, ops, op, op.tid); }
    AgreesSet(sha, ops, s, op, k, sha(op.newPwd), Step(s, sha, op).tokens);
  }

  lemma AgreesForget(sha: Sha, ops: seq<Op>, s: Store, op: Op)
    requires Agrees(sha, ops, s) && op.ForgetPassword?
    ensures Agrees(sha, ops + [op], Step(s, sha, op))
  {
    AgreesFindTid(sha, ops, s, op.tid);
    if Registered(ops, op.tid) {
      assert s.questions[op.tid - 1] == Question(op.tid, Answers(ops)[op.tid - 1]);
      SecretStep(sha, ops, op, op.tid);
    }
    var k := if QuestionText(s.questions, op.tid) == op.answer then FindTid(s.users, op.tid) else |s.users|;
    forall tid | Registered(ops, tid) && tid != k + 1 ensures SameSecret(sha, ops, op, tid) {
      SecretStep(sha, ops, op, tid);
    }
    AgreesSet(sha, ops, s, op, k, sha(op.newPwd), Step(s, sha, op).tokens);
  }

  /** Over every serial run from nothing the store is what the history says: ids are 1 to the pool in order, emails
      distinct, one question record per user; each digest is that of the user's last effective password. */
  lemma {:induction false} StoreFollowsHistory(sha: Sha, ops: seq<Op>)
    ensures Agrees(sha, ops, Serve(sha, ops))
    ensures forall i, j | 0 <= i < j < |Emails(ops)| :: Emails(ops)[i] != Emails(ops)[j]
  {
    EmailsDistinct(ops);
    if ops != [] {
      var before, op := ops[..|ops| - 1], ops[|ops| - 1];
      StoreFollowsHistory(sha, before);
      assert before + [op] == ops;
      if op.Registe? { AgreesRegister(sha, before, Serve(sha, before), op); }
      else if op.Login? { AgreesLogin(sha, before, Serve(sha, before), op); }
      else if op.ChangePassWord? { AgreesChange(sha, before, Serve(sha, before), op); }
      else { AgreesForget(sha, before, Serve(sha, before), op); }
    }
  }

  /** The credential check passes exactly for registered users and inputs with the digest of their last effective
      password. */
  lemma LoginIff(sha: Sha, ops: seq<Op>, tid: int, password: string)
    ensures LogIn(Serve(sha, ops), sha, tid, password).0.Ok? <==>
            Registered(ops, tid) && sha(password) == sha(Secret(sha, ops, tid))
  {
    StoreFollowsHistory(sha, ops);
    AgreesCredentials(sha, ops, Serve(sha, ops), tid, sha(password));
  }

  /** A change moves a digest only when the caller sends the stored digest itself as the old password; the right
      password is refused unless it is its own digest. Either way the session ends. */
  lemma ChangeTakesEffectIff(sha: Sha, ops: seq<Op>, tid: int, oldPwd: string, newPwd: string)
    requires Registered(ops, tid)
    ensures var s := Serve(sha, ops);
            var t := Change(s, sha, tid, oldPwd, newPwd);
            && |t.users| == |s.users| && tid - 1 < |s.users|
            && (t.users[tid - 1].password ==
                  if oldPwd == sha(Secret(sha, ops, tid)) then sha(newPwd) else s.users[tid - 1].password)
            && (forall i | 0 <= i < |s.users| && i != tid - 1 :: t.users[i] == s.users[i])
            && t.tokens == s.tokens - {tid}
  {
    StoreFollowsHistory(sha, ops);
    AgreesCredentials(sha, ops, Serve(sha, ops), tid, oldPwd);
  }

  /** A reset is accepted exactly for the right answer, registered user or not; then the digest is the new one and the
      session ends, for that user only. A refused one changes nothing. */
  lemma ResetIff(sha: Sha, ops: seq<Op>, tid: int, answer: string, newPwd: string)
    ensures var s := Serve(sha, ops);
            var (r, t) := Forget(s, sha, tid, answer, newPwd);
            && (r == if answer == Answer(ops, tid) then Ok(true) else Err(AnswerError))
            && (r.Err? ==> t == s)
            && (r.Ok? ==> t.tokens == s.tokens - {tid} && t.questions == s.questions && t.pool == s.pool
                          && |t.users| == |s.users|
                          && forall i | 0 <= i < |s.users| ::
                               t.users[i] == if i == tid - 1 then s.users[i].(password := sha(newPwd)) else s.users[i])
  {
    var s := Serve(sha, ops);
    StoreFollowsHistory(sha, ops);
    AgreesFindTid(sha, ops, s, tid);
    if Registered(ops, tid) {
      assert s.questions[tid - 1] == Question(tid, Answers(ops)[tid - 1]);
    }
  }

  // Sessions

  /** The k-th request is a login of the user that succeeds. */
  ghost predicate Opens(sha: Sha, ops: seq<Op>, k: int, tid: int) {
    && 0 <= k < |ops| && ops[k].Login? && ops[k].tid == tid
    && Registered(ops[..k], tid) && sha(ops[k].password) == sha(Secret(sha, ops[..k], tid))
  }

  /** The k-th request ends the session of the user: a change, effective or not, or a reset with the right answer. */
  ghost predicate Ends(ops: seq<Op>, k: int, tid: int) {
    && 0 <= k < |ops|
    && ((ops[k].ChangePassWord? && ops[k].tid == tid)
        || (ops[k].ForgetPassword? && ops[k].tid == tid && ops[k].answer == Answer(ops[..k], tid)))
  }

  /** The k-th request opened the session, and none since has ended it. */
  ghost predicate OpenSince(sha: Sha, ops: seq<Op>, k: int, tid: int) {
    Opens(sha, ops, k, tid) && forall j | k < j < |ops| :: !Ends(ops, j, tid)
  }

  /** What one request does to the tokens. */
  lemma TokenStep(sha: Sha, ops: seq<Op>, tid: int)
    requires ops != []
    ensures var n := |ops| - 1;
            tid in Serve(sha, ops).tokens <==>
              Opens(sha, ops, n, tid) || (tid in Serve(sha, ops[..n]).tokens && !Ends(ops, n, tid))
  {
    var n := |ops| - 1;
    var before, op := ops[..n], ops[n];
    match op
    case Login(id, password) => LoginIff(sha, before, id, password);
    case ForgetPassword(id, answer, newPwd) => ResetIff(sha, before, id, answer, newPwd);
    case _ =>
  }

  lemma OpensPrefix(sha: Sha, ops: seq<Op>, n: nat, k: int, tid: int)
    requires k < n <= |ops|
    ensures Opens(sha, ops[..n], k, tid) <==> Opens(sha, ops, k, tid)
    ensures Ends(ops[..n], k, tid) <==> Ends(ops, k, tid)
  {
    if 0 <= k {
      assert ops[..n][..k] == ops[..k];
    }
  }

  lemma OpenSincePrefix(sha: Sha, ops: seq<Op>, k: int, tid: int)
    requires ops != [] && k < |ops| - 1
    ensures OpenSince(sha, ops, k, tid) <==> OpenSince(sha, ops[..|ops| - 1], k, tid) && !Ends(ops, |ops| - 1, tid)
  {
    var n := |ops| - 1;
    forall j: int | j < n
      ensures Opens(sha, ops[..n], j, tid) <==> Opens(sha, ops, j, tid)
      ensures Ends(ops[..n], j, tid) <==> Ends(ops, j, tid) {
      OpensPrefix(sha, ops, n, j, tid);
    }
  }

  ghost predicate HasSession(sha: Sha, ops: seq<Op>, tid: int) {
    exists k :: OpenSince(sha, ops, k, tid)
  }

  /** A session stays open through one request more, if that does not end it. */
  lemma SessionStays(sha: Sha, ops: seq<Op>, tid: int)
    requires ops != [] && HasSession(sha, ops[..|ops| - 1], tid) && !Ends(ops, |ops| - 1, tid)
    ensures HasSession(sha, ops, tid)
  {
    var k :| OpenSince(sha, ops[..|ops| - 1], k, tid);
    OpenSincePrefix(sha, ops, k, tid);
  }

  lemma SessionCame(sha: Sha, ops: seq<Op>, tid: int)
    requires ops != [] && HasSession(sha, ops, tid) && !Opens(sha, ops, |ops| - 1, tid)
    ensures HasSession(sha, ops[..|ops| - 1], tid) && !Ends(ops, |ops| - 1, tid)
  {
    var k :| OpenSince(sha, ops, k, tid);
    OpenSincePrefix(sha, ops, k, tid);
  }

  /** Over every serial run a user has an access token exactly if some login of theirs succeeded and no change of their
      password and no successful reset came after it; what other users do never matters. */
  lemma {:induction false} TokensFollowHistory(sha: Sha, ops: seq<Op>, tid: int)
    ensures tid in Serve(sha, ops).tokens <==> exists k :: OpenSince(sha, ops, k, tid)
  {
    if ops != [] {
      var n := |ops| - 1;
      TokenStep(sha, ops, tid);
      TokensFollowHistory(sha, ops[..n], tid);
      assert tid in Serve(sha, ops[..n]).tokens <==> HasSession(sha, ops[..n], tid);
      assert tid in Serve(sha, ops).tokens <==> HasSession(sha, ops, tid) by {
        if Opens(sha, ops, n, tid) {
          assert OpenSince(sha, ops, n, tid);
        } else {
          if HasSession(sha, ops, tid) { SessionCame(sha, ops, tid); }
          if HasSession(sha, ops[..n], tid) && !Ends(ops, n, tid) { SessionStays(sha, ops, tid); }
        }
      }
    }
  }
}
