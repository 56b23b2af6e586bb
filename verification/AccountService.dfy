/** The account service: the id pool and token cache in Redis, users and questions in Mongo. */
module AccountService {
  import opened Wrappers
  import opened Accounts

  class AccountService {
    const sha: Sha
    var pool: Option<int>
    var users: seq<User>
    var questions: seq<Question>
    var tokens: set<int>
    /** The requests served so far. */
    ghost var history: seq<Op>

    function State(): Store
      reads this
    {
      Store(pool, users, questions, tokens)
    }

    ghost predicate Valid()
      reads this
    {
      State() == Serve(sha, history) && Agrees(sha, history, State())
    }

    constructor (sha: Sha)
      ensures Valid() && history == [] && this.sha == sha
    {
      this.sha := sha;
      pool, users, questions, tokens, history := None, [], [], {}, [];
    }

    ghost method Record(op: Op)
      requires State() == Step(Serve(sha, history), sha, op)
      modifies `history
      ensures Valid() && history == old(history) + [op]
    {
      StoreFollowsHistory(sha, history + [op]);
      assert (history + [op])[..|history|] == history;
      history := history + [op];
    }

    /** The new id is the next one; a refused registration changes no store. */
    method Registe(email: string, password: string, question: Option<string>) returns (r: Result<int, AccountError>)
      requires Valid()
      modifies this
      ensures Valid() && history == old(history) + [Op.Registe(email, password, question)]
      ensures r == if email in Emails(old(history)) then Err(HasSameUser) else Ok(|old(users)| + 1)
      ensures r.Err? ==> State() == old(State())
      ensures tokens == old(tokens)
    {
      var tid := PoolValue(State()) + 1;
      var digest := sha(password);
      AgreesEmail(sha, history, State(), email);
      if EmailTaken(users, email) {
        r := Err(HasSameUser);
      } else {
        users := users + [User(tid, email, digest)];
        questions := questions + [Question(tid, question)];
        pool := Some(tid);
        r := Ok(tid);
      }
      Record(Op.Registe(email, password, question));
    }

    method Login(tid: int, password: string) returns (r: Result<int, AccountError>)
      requires Valid()
      modifies this
      ensures Valid() && history == old(history) + [Op.Login(tid, password)]
      ensures r == if Registered(old(history), tid) && sha(password) == sha(Secret(sha, old(history), tid))
                   then Ok(tid) else Err(TidOrPasswordError)
      ensures users == old(users) && questions == old(questions) && pool == old(pool)
      ensures tokens == old(tokens) + if r.Ok? then {tid} else {}
    {
      LoginIff(sha, history, tid, password);
      if FindCredentials(users, tid, sha(password)) == |users| {
        r := Err(TidOrPasswordError);
      } else {
        tokens := tokens + {tid};
        r := Ok(tid);
      }
      Record(Op.Login(tid, password));
    }

    method ChangePassWord(tid: int, oldPwd: string, newPwd: string) returns (done: bool)
      requires Valid()
      modifies this
      ensures Valid() && done && history == old(history) + [Op.ChangePassWord(tid, oldPwd, newPwd)]
      ensures State() == Change(old(State()), sha, tid, oldPwd, newPwd)
      ensures tokens == old(tokens) - {tid} && questions == old(questions) && pool == old(pool)
    {
      var k := FindCredentials(users, tid, oldPwd);
      users := SetPassword(users, k, sha(newPwd));
      tokens := tokens - {tid};
      Record(Op.ChangePassWord(tid, oldPwd, newPwd));
      done := true;
    }

    method ForgetPassword(tid: int, answer: string, newPwd: string) returns (r: Result<bool, AccountError>)
      requires Valid()
      modifies this
      ensures Valid() && history == old(history) + [Op.ForgetPassword(tid, answer, newPwd)]
      ensures r == if answer == Answer(old(history), tid) then Ok(true) else Err(AnswerError)
      ensures r.Err? ==> State() == old(State())
      ensures r.Ok? ==> tokens == old(tokens) - {tid} && questions == old(questions) && pool == old(pool)
      ensures State() == Forget(old(State()), sha, tid, answer, newPwd).1
    {
      ResetIff(sha, history, tid, answer, newPwd);
      if QuestionText(questions, tid) != answer {
        r := Err(AnswerError);
      } else {
        users := SetPassword(users, FindTid(users, tid), sha(newPwd));
        tokens := tokens - {tid};
        r := Ok(true);
      }
      Record(Op.ForgetPassword(tid, answer, newPwd));
    }
  }
}
