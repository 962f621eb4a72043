/**
 * The CRMEB scan-login driver (`Crmeb::handle`, `Crmeb::login`,
 * `Crmeb::makeRsaCrypt`).
 *
 * The request handling is a linear decision with early exits: three field
 * checks, then (inside one `try`) the RSA decrypt-and-decode step, the
 * allow-list emptiness check, the first-match scan, and `login` on the
 * matched account; anything thrown inside the `try` becomes a failure
 * carrying the exception's message.
 *
 * The collaborators the driver calls are parameters: `unseal` stands for
 * `makeRsaCrypt` + `RsaCrypt::decrypt` + `new WechatAccountRocket` (any of
 * which may throw), `verify` for `password_verify`, `login` for the login
 * routine. `Decide` records, in order, every call the driver makes into a
 * collaborator, so that "is never reached" is a statement about that trace.
 */
module CrmebDriver {
  import opened Php
  import opened Matching

  /** The three POST fields as strings; a missing one (null) is taken as "", which `empty()` treats alike. */
  datatype Request = Request(payload: string, signature: string, key: string)

  /** The arguments `makeRsaCrypt` passes to `new RsaCrypt`: two key files and the caller's key. */
  datatype RsaCrypt = RsaCrypt(privateKeyFile: string, publicKeyFile: string, key: string)

  /** The key files, relative to the package root (`dirname(__DIR__, 2)`). */
  const PrivateKeyFile: string := "pem/rsa_private.key"
  const PublicKeyFile: string := "pem/rsa_public.key"

  /** The decoded login assertion; only the token hash is used by `handle`. */
  datatype Rocket = Rocket(tokenPasswordHash: Hash)

  /** What `createToken` issued for the session; opaque to the driver. */
  datatype Session = Session(token: string, expiresTime: int)

  /** `login` is declared `array|bool`: a boolean, or the session array (which always has entries). */
  datatype LoginValue = BoolValue(b: bool) | ArrayValue(session: Session)

  /** The JSON response of `app('json')`: `fail($msg)` or `success($data)`. */
  datatype Response = Fail(message: Message) | Success(data: LoginValue)

  /** A call from `handle` into a collaborator. */
  datatype Call =
    | Unsealed(crypt: RsaCrypt, payload: string, signature: string)
    | ReadAllowList
    | PasswordVerify(token: Token, hash: Hash)
    | Login(account: Account)

  /** How far the decision gets before `login`: an early response, or the account to log in. */
  datatype Stage = Stop(response: Response) | LoginWith(account: Account)

  /** The stage reached, with the collaborator calls made on the way (`login` not included). */
  datatype Decision = Decision(stage: Stage, calls: seq<Call>)

  const NoMatchMessage: string := "登录失败：token哈希与登录方不一致"

  /** `strtoupper('iyuu.scan_login') . ' list is empty'`. */
  const ListEmptyMessage: string := ToUpper("iyuu.scan_login") + " list is empty"

  /** The message `handle` reports for an empty allow-list, written out. */
  lemma ListEmptyMessageText()
    ensures ListEmptyMessage == "IYUU.SCAN_LOGIN list is empty"
  {
    var s, u := "iyuu.scan_login", "IYUU.SCAN_LOGIN";
    forall i | 0 <= i < |s| ensures ToUpper(s)[i] == u[i] {
      assert ToUpper(s)[i] == UpperChar(s[i]);
    }
    assert ToUpper(s) == u;
  }

  /** `makeRsaCrypt($key)`: the same two key files for every key; only the third argument varies. */
  function MakeRsaCrypt(key: string): (c: RsaCrypt)
    ensures c.privateKeyFile == PrivateKeyFile && c.publicKeyFile == PublicKeyFile
    ensures c.key == key
  {
    RsaCrypt(PrivateKeyFile, PublicKeyFile, key)
  }

  /** Distinct keys give distinct crypt contexts, and any two contexts differ only in the key. */
  lemma MakeRsaCryptInjective(k1: string, k2: string)
    ensures MakeRsaCrypt(k1) == MakeRsaCrypt(k2) <==> k1 == k2
    ensures MakeRsaCrypt(k1).(key := k2) == MakeRsaCrypt(k2)
  {
  }

  /** The first of payload, signature, key (in that order) that is empty, as its failure message. */
  function MissingField(req: Request): (r: Option<Message>)
    ensures r.None? <==> !Empty(req.payload) && !Empty(req.signature) && !Empty(req.key)
    ensures r == Some(Text("payload is empty")) <==> Empty(req.payload)
    ensures r == Some(Text("signature is empty")) <==> !Empty(req.payload) && Empty(req.signature)
  {
    if Empty(req.payload) then Some(Text("payload is empty"))
    else if Empty(req.signature) then Some(Text("signature is empty"))
    else if Empty(req.key) then Some(Text("key is empty"))
    else None
  }

  /** The `password_verify` calls made on the examined pairs, in order. */
  function VerifyCalls(pairs: seq<(Account, Token)>, hash: Hash): (calls: seq<Call>)
    ensures |calls| == |pairs|
    ensures forall n :: 0 <= n < |pairs| ==> calls[n] == PasswordVerify(pairs[n].1, hash)
  {
    seq(|pairs|, n requires 0 <= n < |pairs| => PasswordVerify(pairs[n].1, hash))
  }

  /** `handle` up to the call of `login`. */
  function Decide(req: Request, unseal: (RsaCrypt, string, string) -> Outcome<Rocket>,
                  list: AllowList, verify: (Token, Hash) -> bool): (d: Decision)
    ensures d.calls == [] <==> MissingField(req).Some?
    ensures forall n :: 0 <= n < |d.calls| ==> !d.calls[n].Login?
    ensures d.stage.LoginWith? ==> exists k :: 0 <= k < |list| && list[k].0 == d.stage.account
  {
    match MissingField(req)
    case Some(m) => Decision(Stop(Fail(m)), [])
    case None =>
      var crypt := MakeRsaCrypt(req.key);
      var unsealCall := [Unsealed(crypt, req.payload, req.signature)];
      match unseal(crypt, req.payload, req.signature)
      case Threw(m) => Decision(Stop(Fail(m)), unsealCall)
      case Ok(rocket) =>
        var read := unsealCall + [ReadAllowList];
        if |list| == 0 then Decision(Stop(Fail(Text(ListEmptyMessage))), read)
        else
          var scan := ScanDecision(list, rocket.tokenPasswordHash, verify);
          Decision(scan.stage, read + scan.calls)
  }

  /** The scan part of `handle`: the `password_verify` calls made, and `login` or the mismatch failure. */
  function ScanDecision(list: AllowList, hash: Hash, verify: (Token, Hash) -> bool): (d: Decision)
    ensures forall n :: 0 <= n < |d.calls| ==> d.calls[n].PasswordVerify?
    ensures d.stage.LoginWith? ==> exists k :: 0 <= k < |list| && list[k].0 == d.stage.account
  {
    var tried := VerifyCalls(Examined(list, hash, verify), hash);
    match FirstMatch(list, hash, verify)
    case Some(account) => Decision(LoginWith(account), tried)
    case None => Decision(Stop(Fail(Text(NoMatchMessage))), tried)
  }

  /** A PHP value used as a condition: `false` is falsy, a non-empty array is truthy. */
  predicate Truthy(v: LoginValue)
    ensures !Truthy(v) <==> v == BoolValue(false)
  {
    match v
    case BoolValue(b) => b
    case ArrayValue(_) => true
  }

  /** The response for what `login` did: thrown, falsy, or truthy. */
  function Finish(o: Outcome<LoginValue>): (r: Response)
    ensures r.Success? <==> o.Ok? && o.value != BoolValue(false)
    ensures r.Success? ==> r.data == o.value
    ensures o.Threw? ==> r == Fail(o.message)
  {
    match o
    case Threw(m) => Fail(m)
    case Ok(v) => if !Truthy(v) then Fail(Code(400140)) else Success(v)
  }

  /** The response of `handle`. */
  function Reply(req: Request, unseal: (RsaCrypt, string, string) -> Outcome<Rocket>,
                 list: AllowList, verify: (Token, Hash) -> bool,
                 login: Account -> Outcome<LoginValue>): (r: Response)
    ensures r.Success? ==> r.data != BoolValue(false)
    ensures r.Success? ==>
      var stage := Decide(req, unseal, list, verify).stage;
      stage.LoginWith? && login(stage.account) == Ok(r.data)
  {
    match Decide(req, unseal, list, verify).stage
    case Stop(r) => r
    case LoginWith(account) => Finish(login(account))
  }

  /** Every collaborator call `handle` makes, in order, `login` included. */
  function Trace(req: Request, unseal: (RsaCrypt, string, string) -> Outcome<Rocket>,
                 list: AllowList, verify: (Token, Hash) -> bool): (calls: seq<Call>)
    ensures Decide(req, unseal, list, verify).calls <= calls
    ensures (|calls| > 0 && calls[|calls| - 1].Login?) <==> Decide(req, unseal, list, verify).stage.LoginWith?
    ensures |calls| <= |Decide(req, unseal, list, verify).calls| + 1
  {
    var d := Decide(req, unseal, list, verify);
    match d.stage
    case Stop(_) => d.calls
    case LoginWith(account) => d.calls + [Login(account)]
  }

  /** Handle's inputs past the field checks, with a decrypted and decoded payload. */
  predicate Decrypted(req: Request, unseal: (RsaCrypt, string, string) -> Outcome<Rocket>, rocket: Rocket)
  {
    MissingField(req).None? && unseal(MakeRsaCrypt(req.key), req.payload, req.signature) == Ok(rocket)
  }

  /**
   * The field checks come first and in a fixed order: the failure names the
   * first empty field among payload, signature, key, and no collaborator is
   * called at all (no decrypt, no allow-list read, no verify, no login).
   */
  lemma FieldChecksFirst(req: Request, unseal: (RsaCrypt, string, string) -> Outcome<Rocket>,
                         list: AllowList, verify: (Token, Hash) -> bool,
                         login: Account -> Outcome<LoginValue>)
    ensures Empty(req.payload) ==>
      Reply(req, unseal, list, verify, login) == Fail(Text("payload is empty"))
    ensures !Empty(req.payload) && Empty(req.signature) ==>
      Reply(req, unseal, list, verify, login) == Fail(Text("signature is empty"))
    ensures !Empty(req.payload) && !Empty(req.signature) && Empty(req.key) ==>
      Reply(req, unseal, list, verify, login) == Fail(Text("key is empty"))
    ensures Empty(req.payload) || Empty(req.signature) || Empty(req.key) ==>
      Trace(req, unseal, list, verify) == []
  {
  }

  /**
   * When decrypting or decoding throws, the response is a failure carrying
   * that message, the only call made is the decrypt step (with the fixed key
   * files and the caller's key), and `login` is never called.
   */
  lemma UnsealFailure(req: Request, unseal: (RsaCrypt, string, string) -> Outcome<Rocket>,
                      list: AllowList, verify: (Token, Hash) -> bool,
                      login: Account -> Outcome<LoginValue>, m: Message)
    requires MissingField(req).None?
    requires unseal(MakeRsaCrypt(req.key), req.payload, req.signature) == Threw(m)
    ensures Reply(req, unseal, list, verify, login) == Fail(m)
    ensures Trace(req, unseal, list, verify) ==
      [Unsealed(RsaCrypt(PrivateKeyFile, PublicKeyFile, req.key), req.payload, req.signature)]
  {
  }

  /**
   * An empty allow-list fails with "IYUU.SCAN_LOGIN list is empty" after the
   * decrypt step and the allow-list read, before any `password_verify`.
   */
  lemma EmptyAllowList(req: Request, unseal: (RsaCrypt, string, string) -> Outcome<Rocket>,
                       verify: (Token, Hash) -> bool, login: Account -> Outcome<LoginValue>, rocket: Rocket)
    requires Decrypted(req, unseal, rocket)
    ensures Reply(req, unseal, [], verify, login) == Fail(Text("IYUU.SCAN_LOGIN list is empty"))
    ensures Trace(req, unseal, [], verify) ==
      [Unsealed(MakeRsaCrypt(req.key), req.payload, req.signature), ReadAllowList]
  {
    ListEmptyMessageText();
  }

  /** Past a successful decrypt, with a non-empty allow-list, the decision is the scan's. */
  lemma DecideAfterUnseal(req: Request, unseal: (RsaCrypt, string, string) -> Outcome<Rocket>,
                          list: AllowList, verify: (Token, Hash) -> bool, rocket: Rocket)
    requires Decrypted(req, unseal, rocket)
    requires |list| > 0
    ensures var scan := ScanDecision(list, rocket.tokenPasswordHash, verify);
      Decide(req, unseal, list, verify) ==
        Decision(scan.stage, [Unsealed(MakeRsaCrypt(req.key), req.payload, req.signature), ReadAllowList] + scan.calls)
  {
  }

  /**
   * First match wins. With a non-empty allow-list, `login` is called exactly
   * when some (account, token) pair verifies against the payload's hash, and
   * then with the first such account in list order; the `password_verify`
   * calls are those of every earlier account, then that account's tokens up
   * to the one that verified, and nothing after; the response is what
   * `login` produced.
   */
  lemma FirstMatchWins(req: Request, unseal: (RsaCrypt, string, string) -> Outcome<Rocket>,
                       list: AllowList, verify: (Token, Hash) -> bool,
                       login: Account -> Outcome<LoginValue>, rocket: Rocket)
    requires Decrypted(req, unseal, rocket)
    requires |list| > 0
    ensures var hash := rocket.tokenPasswordHash;
      Decide(req, unseal, list, verify).stage.LoginWith? <==>
        exists k, t :: 0 <= k < |list| && 0 <= t < |list[k].1| && verify(list[k].1[t], hash)
    ensures var hash := rocket.tokenPasswordHash;
      var i := FirstAccount(list, hash, verify);
      i < |list| ==>
        var j := FirstToken(list[i].1, hash, verify);
        && Reply(req, unseal, list, verify, login) == Finish(login(list[i].0))
        && Trace(req, unseal, list, verify) ==
             [Unsealed(MakeRsaCrypt(req.key), req.payload, req.signature), ReadAllowList]
             + VerifyCalls(Pairs(list[..i]) + Tag(list[i].0, list[i].1[..j + 1]), hash)
             + [Login(list[i].0)]
  {
    var hash := rocket.tokenPasswordHash;
    DecideAfterUnseal(req, unseal, list, verify, rocket);
    var i := FirstAccount(list, hash, verify);
    if i < |list| {
      assert FirstMatch(list, hash, verify) == Some(list[i].0);
      ExaminedShape(list, hash, verify);
      var prefix := [Unsealed(MakeRsaCrypt(req.key), req.payload, req.signature), ReadAllowList];
      var d := Decide(req, unseal, list, verify);
      assert d.stage == LoginWith(list[i].0);
      assert d.calls == prefix + VerifyCalls(Examined(list, hash, verify), hash);
    }
  }

  /**
   * When no pair verifies, every pair of the allow-list is tried, `login` is
   * never called, and the response is the fixed mismatch failure.
   */
  lemma NoMatch(req: Request, unseal: (RsaCrypt, string, string) -> Outcome<Rocket>,
                list: AllowList, verify: (Token, Hash) -> bool,
                login: Account -> Outcome<LoginValue>, rocket: Rocket)
    requires Decrypted(req, unseal, rocket)
    requires |list| > 0
    requires forall k, t :: 0 <= k < |list| && 0 <= t < |list[k].1| ==>
      !verify(list[k].1[t], rocket.tokenPasswordHash)
    ensures Reply(req, unseal, list, verify, login) == Fail(Text(NoMatchMessage))
    ensures Trace(req, unseal, list, verify) ==
      [Unsealed(MakeRsaCrypt(req.key), req.payload, req.signature), ReadAllowList]
      + VerifyCalls(Pairs(list), rocket.tokenPasswordHash)
  {
    var hash := rocket.tokenPasswordHash;
    DecideAfterUnseal(req, unseal, list, verify, rocket);
    assert FirstMatch(list, hash, verify) == None;
    ExaminedShape(list, hash, verify);
  }

  /**
   * `login` is called at most once over every input: a `Login` call can only
   * be the last call of the trace, on the account the scan matched.
   */
  lemma LoginAtMostOnce(req: Request, unseal: (RsaCrypt, string, string) -> Outcome<Rocket>,
                          list: AllowList, verify: (Token, Hash) -> bool)
    ensures var calls := Trace(req, unseal, list, verify);
      forall n :: 0 <= n < |calls| && calls[n].Login? ==>
        n == |calls| - 1 && Decide(req, unseal, list, verify).stage == LoginWith(calls[n].account)
  {
    var d := Decide(req, unseal, list, verify);
    assert forall n :: 0 <= n < |d.calls| ==> !d.calls[n].Login?;
  }

  /**
   * Once an account matched, the response is decided by what `login` did: a
   * thrown exception gives a failure with its message, a falsy result gives
   * `fail(400140)`, a truthy result gives `success` with that result.
   */
  lemma LoginOutcomes(req: Request, unseal: (RsaCrypt, string, string) -> Outcome<Rocket>,
                      list: AllowList, verify: (Token, Hash) -> bool,
                      login: Account -> Outcome<LoginValue>, account: Account)
    requires Decide(req, unseal, list, verify).stage == LoginWith(account)
    ensures login(account).Threw? ==> Reply(req, unseal, list, verify, login) == Fail(login(account).message)
    ensures login(account).Ok? && !Truthy(login(account).value) ==>
      Reply(req, unseal, list, verify, login) == Fail(Code(400140))
    ensures login(account).Ok? && Truthy(login(account).value) ==>
      Reply(req, unseal, list, verify, login) == Success(login(account).value)
  {
  }

  /** One row of the system_admin table, as `accountByAdmin` finds it. */
  datatype Admin = Admin(status: int, lastTime: int, lastIp: string, loginCount: int)

  /** The guard of `login`: an unknown account throws 400140, a disabled one 400595, in that order. */
  function Guard(admins: map<Account, Admin>, account: Account): (g: Outcome<Admin>)
    ensures g.Ok? <==> account in admins && admins[account].status != 0
    ensures g.Ok? ==> g.value == admins[account]
    ensures g.Threw? ==> g.message == (if account in admins then Code(400595) else Code(400140))
  {
    if account !in admins then Threw(Code(400140))
    else if admins[account].status == 0 then Threw(Code(400595))
    else Ok(admins[account])
  }

  /** What `login` returns for `account` against the table `admins`, given the session it issues. */
  function LoginResult(admins: map<Account, Admin>, account: Account, issued: Session): (r: Outcome<LoginValue>)
    ensures r.Ok? <==> account in admins && admins[account].status != 0
    ensures r.Ok? ==> r.value == ArrayValue(issued) && Truthy(r.value)
    ensures r.Threw? ==> r.message == Code(400140) || r.message == Code(400595)
  {
    match Guard(admins, account)
    case Threw(m) => Threw(m)
    case Ok(_) => Ok(ArrayValue(issued))
  }

  /** The table after `login`: the matched row stamped with the time and address, its count raised by one. */
  function AfterLogin(admins: map<Account, Admin>, account: Account, now: int, ip: string): (after: map<Account, Admin>)
    ensures after.Keys == admins.Keys
    ensures forall other :: other in admins && other != account ==> after[other] == admins[other]
    ensures account in admins ==> after[account].status == admins[account].status
  {
    match Guard(admins, account)
    case Threw(_) => admins
    case Ok(a) => admins[account := a.(lastTime := now, lastIp := ip, loginCount := a.loginCount + 1)]
  }

  /**
   * The login rules: an unknown account is refused with 400140 and a
   * disabled one with 400595, the table left as it was; otherwise only that
   * account's row changes, its count goes up by exactly one, its status stays,
   * and the result is truthy.
   */
  lemma LoginRules(admins: map<Account, Admin>, account: Account, now: int, ip: string, issued: Session)
    ensures account !in admins ==>
      LoginResult(admins, account, issued) == Threw(Code(400140)) && AfterLogin(admins, account, now, ip) == admins
    ensures account in admins && admins[account].status == 0 ==>
      LoginResult(admins, account, issued) == Threw(Code(400595)) && AfterLogin(admins, account, now, ip) == admins
    ensures account in admins && admins[account].status != 0 ==>
      var after := AfterLogin(admins, account, now, ip);
      && LoginResult(admins, account, issued).Ok?
      && Truthy(LoginResult(admins, account, issued).value)
      && after.Keys == admins.Keys
      && after[account].loginCount == admins[account].loginCount + 1
      && after[account].status == admins[account].status
      && after[account].lastTime == now && after[account].lastIp == ip
      && forall other :: other in admins && other != account ==> after[other] == admins[other]
  {
  }

  /**
   * With this driver's own `login`, the `fail(400140)` that `handle` issues
   * for a falsy login result cannot arise from that branch: a matched account
   * either logs in or is refused by the guard.
   */
  lemma OwnLoginIsNeverFalsy(admins: map<Account, Admin>, account: Account, issued: Session)
    ensures Finish(LoginResult(admins, account, issued)) ==
      match Guard(admins, account)
      case Threw(m) => Fail(m)
      case Ok(_) => Success(ArrayValue(issued))
  {
  }

  /** The driver object: the admin table it reads and saves through its DAO. */
  class Crmeb {
    var admins: map<Account, Admin>

    constructor (admins: map<Account, Admin>)
      ensures this.admins == admins
    {
      this.admins := admins;
    }

    /**
     * `login($account)` up to `save()`: `now` is `time()`, `ip` the request
     * address, `issued` the session `createToken` issues for the account.
     */
    method Login(account: Account, now: int, ip: string, issued: Session) returns (r: Outcome<LoginValue>)
      modifies this
      ensures r == LoginResult(old(admins), account, issued)
      ensures admins == AfterLogin(old(admins), account, now, ip)
    {
      if account !in admins {
        return Threw(Code(400140));
      }
      var info := admins[account];
      if info.status == 0 {
        return Threw(Code(400595));
      }
      info := info.(lastTime := now, lastIp := ip);
      info := info.(loginCount := info.loginCount + 1);
      admins := admins[account := info];
      return Ok(ArrayValue(issued));
    }

    /**
     * `handle($request)`: the field checks, the decrypt step, the allow-list
     * check, the scan, and `login` on the first match. The table changes only
     * when the decision reached `login`, and then as `login` changes it.
     */
    method Handle(req: Request, unseal: (RsaCrypt, string, string) -> Outcome<Rocket>,
                  list: AllowList, verify: (Token, Hash) -> bool,
                  now: int, ip: string, issued: Session) returns (r: Response)
      modifies this
      ensures r == Reply(req, unseal, list, verify, a => LoginResult(old(admins), a, issued))
      ensures admins == match Decide(req, unseal, list, verify).stage
                        case Stop(_) => old(admins)
                        case LoginWith(a) => AfterLogin(old(admins), a, now, ip)
    {
      if Empty(req.payload) {
        return Fail(Text("payload is empty"));
      }
      if Empty(req.signature) {
        return Fail(Text("signature is empty"));
      }
      if Empty(req.key) {
        return Fail(Text("key is empty"));
      }
      var crypt := MakeRsaCrypt(req.key);
      var data := unseal(crypt, req.payload, req.signature);
      if data.Threw? {
        return Fail(data.message);
      }
      var rocket := data.value;
      if |list| == 0 {
        return Fail(Text(ListEmptyMessage));
      }
      var found := Scan(list, rocket.tokenPasswordHash, verify);
      if found.None? {
        return Fail(Text(NoMatchMessage));
      }
      var result := Login(found.value, now, ip, issued);
      if result.Threw? {
        return Fail(result.message);
      }
      if !Truthy(result.value) {
        return Fail(Code(400140));
      }
      return Success(result.value);
    }
  }
}
