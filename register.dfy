/**
 * Beta registration by e-mail (`POST /api/auth/register`, routes/register.js): a whitelisted
 * address gets a `BREW-XXXXXX` token, stored in the `registrations` table and mailed to it; an
 * address that already has a registration gets its stored token mailed again.
 *
 * The random bytes and the mail service come from the environment: `random(k)` is the k-th
 * byte `randomBytes` yields during the request, and `mailDelivers` says whether the mail
 * service accepts the message.
 */
module Register {
  import opened Wrappers
  import opened Text
  import opened JsValue
  import opened Database
  import opened Auth

  newtype byte = x: int | 0 <= x < 256

  /** The token alphabet: capital letters and digits without I, O, 0 and 1. */
  const Alphabet: string := "ABCDEFGHJKLMNPQRSTUVWXYZ23456789"

  /** The fixed start of every token. */
  const TokenPrefix: string := "BREW-"

  /** The number of random characters after the prefix. */
  const TokenLength: nat := 6

  /** The number of generate-and-check rounds before the last candidate is taken anyway. */
  const MaxAttempts: nat := 10

  // ---------------------------------------------------------------------------
  // Tokens
  // ---------------------------------------------------------------------------

  /** The character the byte `b` selects. */
  function CharOf(b: byte): char {
    Alphabet[b as int % |Alphabet|]
  }

  /** The first `n` random characters of the token drawn from byte number `from` on. */
  function DrawnChars(random: nat -> byte, from: nat, n: nat): string {
    seq(n, j requires 0 <= j < n => CharOf(random(from + j)))
  }

  /** `generateToken()` when the bytes it takes are `random(from)`, …, `random(from + 5)`. */
  function TokenFrom(random: nat -> byte, from: nat): string {
    TokenPrefix + DrawnChars(random, from, TokenLength)
  }

  /** `generateToken`: the prefix, then one alphabet character per random byte. */
  method GenerateToken(random: nat -> byte, from: nat) returns (token: string)
    ensures token == TokenFrom(random, from)
  {
    token := TokenPrefix;
    for i := 0 to TokenLength
      invariant token == TokenPrefix + DrawnChars(random, from, i)
    {
      assert DrawnChars(random, from, i + 1) == DrawnChars(random, from, i) + [CharOf(random(from + i))];
      token := token + [Alphabet[random(from + i) as int % |Alphabet|]];
    }
  }

  /** A character a reader might confuse with another one. */
  predicate Ambiguous(c: char) {
    c == 'I' || c == 'O' || c == '0' || c == '1'
  }

  /** The alphabet is made of capital letters and digits, none of them ambiguous. */
  lemma AlphabetUnambiguous()
    ensures |Alphabet| == 32
    ensures forall k :: 0 <= k < |Alphabet| ==>
      !Ambiguous(Alphabet[k]) && (('A' <= Alphabet[k] <= 'Z') || ('2' <= Alphabet[k] <= '9'))
  {
  }

  /** A token as `generateToken` writes it. */
  predicate WellFormedToken(t: string) {
    |t| == |TokenPrefix| + TokenLength && t[..|TokenPrefix|] == TokenPrefix
    && forall i :: |TokenPrefix| <= i < |t| ==> t[i] in Alphabet
  }

  /** Every generated token is eleven characters long, starts with the prefix, and holds no
      ambiguous character. */
  lemma TokensWellFormed(random: nat -> byte, from: nat)
    ensures WellFormedToken(TokenFrom(random, from)) && |TokenFrom(random, from)| == 11
    ensures forall i :: 0 <= i < |TokenFrom(random, from)| ==> !Ambiguous(TokenFrom(random, from)[i])
  {
    var t := TokenFrom(random, from);
    AlphabetUnambiguous();
    assert t[..|TokenPrefix|] == TokenPrefix;
    forall i | |TokenPrefix| <= i < |t|
      ensures t[i] in Alphabet && !Ambiguous(t[i])
    {
      assert t[i] == DrawnChars(random, from, TokenLength)[i - 5] == CharOf(random(from + (i - 5)));
    }
    forall i | 0 <= i < |TokenPrefix|
      ensures !Ambiguous(t[i])
    {
      assert t[i] == TokenPrefix[i];
    }
  }

  // ---------------------------------------------------------------------------
  // The registration tables
  // ---------------------------------------------------------------------------

  /** A row of `registrations`; `used` is false for a fresh row. */
  datatype Registration = Registration(email: string, token: string, used: bool)

  /** The row `SELECT token, used FROM registrations WHERE email = ?` returns: the first. */
  function RegistrationOf(regs: seq<Registration>, email: string): (r: Option<Registration>)
    ensures r.Some? ==> r.value in regs && r.value.email == email
    ensures r.None? ==> forall x :: x in regs ==> x.email != email
  {
    if regs == [] then None
    else if regs[0].email == email then Some(regs[0])
    else RegistrationOf(regs[1..], email)
  }

  /** `SELECT id FROM registrations WHERE token = ?` returns a row. */
  predicate TokenTaken(regs: seq<Registration>, token: string) {
    exists x :: x in regs && x.token == token
  }

  /**
   * The `whitelist` and `registrations` tables of the connected database. `handle` is the
   * connection `getDatabase()` returns; storage failures follow the same plan as the rest of
   * the store: statement number `failAt` fails and changes nothing.
   */
  class Registry {
    var handle: Option<Backend>
    var whitelist: seq<string>
    var registrations: seq<Registration>
    var calls: nat
    var failAt: Option<nat>

    /** A registry over the given tables; no statement has run yet. */
    constructor (handle: Option<Backend>, whitelist: seq<string>, registrations: seq<Registration>, failAt: Option<nat>)
      ensures this.handle == handle && this.whitelist == whitelist && this.registrations == registrations
      ensures calls == 0 && this.failAt == failAt
    {
      this.handle := handle;
      this.whitelist := whitelist;
      this.registrations := registrations;
      calls := 0;
      this.failAt := failAt;
    }

    /** The statement about to run is the one the environment makes fail. */
    predicate Fails()
      reads this
    {
      failAt == Some(calls)
    }

    /** `SELECT id FROM whitelist WHERE email = ?` finds a row. */
    method IsWhitelisted(email: string) returns (r: Result<bool, DbError>)
      requires handle.Some?
      modifies this
      ensures handle == old(handle) && whitelist == old(whitelist) && registrations == old(registrations)
      ensures failAt == old(failAt) && calls == old(calls) + 1
      ensures r == if old(Fails()) then Err(IoFailure) else Ok(email in whitelist)
    {
      var fails := Fails();
      calls := calls + 1;
      if fails {
        return Err(IoFailure);
      }
      r := Ok(email in whitelist);
    }

    /** `SELECT token, used FROM registrations WHERE email = ?`. */
    method FindRegistration(email: string) returns (r: Result<Option<Registration>, DbError>)
      requires handle.Some?
      modifies this
      ensures handle == old(handle) && whitelist == old(whitelist) && registrations == old(registrations)
      ensures failAt == old(failAt) && calls == old(calls) + 1
      ensures r == if old(Fails()) then Err(IoFailure) else Ok(RegistrationOf(registrations, email))
    {
      var fails := Fails();
      calls := calls + 1;
      if fails {
        return Err(IoFailure);
      }
      r := Ok(RegistrationOf(registrations, email));
    }

    /** `SELECT id FROM registrations WHERE token = ?` finds a row. */
    method HasToken(token: string) returns (r: Result<bool, DbError>)
      requires handle.Some?
      modifies this
      ensures handle == old(handle) && whitelist == old(whitelist) && registrations == old(registrations)
      ensures failAt == old(failAt) && calls == old(calls) + 1
      ensures r == if old(Fails()) then Err(IoFailure) else Ok(TokenTaken(registrations, token))
    {
      var fails := Fails();
      calls := calls + 1;
      if fails {
        return Err(IoFailure);
      }
      r := Ok(exists x :: x in registrations && x.token == token);
    }

    /** `INSERT INTO registrations (email, token) VALUES (?, ?)`; `used` takes its default. */
    method Insert(email: string, token: string) returns (r: Result<(), DbError>)
      requires handle.Some?
      modifies this
      ensures handle == old(handle) && whitelist == old(whitelist)
      ensures failAt == old(failAt) && calls == old(calls) + 1
      ensures old(Fails()) ==> r == Err(IoFailure) && registrations == old(registrations)
      ensures !old(Fails()) ==> r == Ok(()) && registrations == old(registrations) + [Registration(email, token, false)]
    {
      var fails := Fails();
      calls := calls + 1;
      if fails {
        return Err(IoFailure);
      }
      registrations := registrations + [Registration(email, token, false)];
      r := Ok(());
    }
  }

  // ---------------------------------------------------------------------------
  // The retry loop
  // ---------------------------------------------------------------------------

  /** Candidate number `a` (from 0): the token drawn from the `6 a`-th random byte on. */
  function Candidate(random: nat -> byte, a: nat): string {
    TokenFrom(random, TokenLength * a)
  }

  /** The round the loop stops in when it reaches round `a`: the first free candidate from
      `a` on, or the last round when every candidate is taken. */
  function Chosen(regs: seq<Registration>, random: nat -> byte, a: nat): (k: nat)
    requires a < MaxAttempts
    ensures a <= k < MaxAttempts
    ensures forall b :: a <= b < k ==> TokenTaken(regs, Candidate(random, b))
    ensures k < MaxAttempts - 1 ==> !TokenTaken(regs, Candidate(random, k))
    decreases MaxAttempts - a
  {
    if !TokenTaken(regs, Candidate(random, a)) || a == MaxAttempts - 1 then a
    else Chosen(regs, random, a + 1)
  }

  /**
   * The `do … while` of the handler: generate a candidate, look it up, stop at the first one
   * no registration holds, and after ten taken candidates keep the tenth. `ok` is false when a
   * lookup fails.
   */
  method ChooseToken(store: Registry, random: nat -> byte) returns (token: string, ghost k: nat, ok: bool)
    requires store.handle.Some?
    modifies store
    ensures store.handle == old(store.handle) && store.whitelist == old(store.whitelist)
    ensures store.registrations == old(store.registrations) && store.failAt == old(store.failAt)
    ensures ok <==> Spared(old(store.failAt), old(store.calls), Chosen(old(store.registrations), random, 0) + 1)
    ensures ok ==> (k == Chosen(old(store.registrations), random, 0) && token == Candidate(random, k)
      && store.calls == old(store.calls) + k + 1)
  {
    ghost var regs, c0 := store.registrations, store.calls;
    ghost var chosen := Chosen(regs, random, 0);
    var attempts := 0;
    token, k := "", 0;
    while true
      invariant attempts < MaxAttempts
      invariant store.handle == old(store.handle) && store.whitelist == old(store.whitelist)
      invariant store.registrations == regs && store.failAt == old(store.failAt)
      invariant store.calls == c0 + attempts && Spared(store.failAt, c0, attempts)
      invariant Chosen(regs, random, attempts) == chosen
      decreases MaxAttempts - attempts
    {
      token := GenerateToken(random, TokenLength * attempts);
      k := attempts;
      var conflict := store.HasToken(token);
      if conflict.Err? {
        return token, k, false;
      }
      SparedStep(store.failAt, c0, attempts);
      if !conflict.value {
        break;
      }
      attempts := attempts + 1;
      if attempts >= MaxAttempts {
        break;
      }
    }
    ok := true;
  }

  // ---------------------------------------------------------------------------
  // The handler
  // ---------------------------------------------------------------------------

  /** What the handler makes of `req.body`: */
  datatype EmailCheck =
    | Unreadable          // an error escapes before the `try`
    | Invalid             // 400 'Invalid email address'
    | Normalized(email: string)

  /** `const { email } = req.body`, `!email || !email.includes('@')`, then
      `email.toLowerCase().trim()`. Only a string that contains `@` gets through; a truthy
      value without `includes` or `toLowerCase` throws. */
  function CheckEmail(body: Value): EmailCheck {
    if body.Undefined? || body.Null? then Unreadable
    else
      var email := Get(body, "email");
      if !Truthy(email) then Invalid
      else match email
        case Str(s) => if '@' in s then Normalized(Trim(Lower(s))) else Invalid
        case Arr(items) => if Str("@") in items then Unreadable else Invalid
        case _ => Unreadable
  }

  /** A normalised e-mail address is trimmed, lower case, and still holds its `@`. */
  lemma NormalizedEmail(body: Value)
    requires CheckEmail(body).Normalized?
    ensures Get(body, "email").Str? && '@' in Get(body, "email").s
    ensures CheckEmail(body).email == Trim(Lower(Get(body, "email").s))
    ensures Trim(CheckEmail(body).email) == CheckEmail(body).email
  {
    TrimIdempotent(Lower(Get(body, "email").s));
  }

  /** The answer of an error that escapes the handler: the application's error handler. */
  const Unhandled := Response(500, ErrorBody("Internal server error"))

  /** `{ success: true, resent }`. */
  function RegisteredBody(resent: bool): Value {
    Obj(map["success" := Bool(true), "resent" := Bool(resent)])
  }

  /** The effect of the `try` block for a normalised address: the answer, the registrations
      afterwards, and the mail the handler hands to the mail service (recipient and token). */
  datatype Registered = Registered(response: Response, registrations: seq<Registration>, mailed: Option<(string, string)>)

  /**
   * The `try` block for `email` over the tables `whitelist` and `regs`, the next statement
   * being number `calls`: the whitelist lookup, the registration lookup, then either the mail
   * of the stored token, or the retry loop, the insert and the mail of the new token.
   */
  function Expected(whitelist: seq<string>, regs: seq<Registration>, failAt: Option<nat>, calls: nat,
                    email: string, random: nat -> byte, mailDelivers: bool): Registered {
    if failAt == Some(calls) then Registered(ServerError, regs, None)
    else if email !in whitelist then Registered(Response(403, ErrorBody("not_whitelisted")), regs, None)
    else if failAt == Some(calls + 1) then Registered(ServerError, regs, None)
    else match RegistrationOf(regs, email)
      case Some(r) =>
        Registered(if mailDelivers then Response(200, RegisteredBody(true)) else ServerError, regs, Some((email, r.token)))
      case None =>
        var k := Chosen(regs, random, 0);
        if !Spared(failAt, calls + 2, k + 2) then Registered(ServerError, regs, None)
        else
          var token := Candidate(random, k);
          Registered(if mailDelivers then Response(200, RegisteredBody(false)) else ServerError,
                     regs + [Registration(email, token, false)], Some((email, token)))
  }

  /** The `try` block of the handler for the normalised address `email`. */
  method RegisterEmail(store: Registry, email: string, random: nat -> byte, mailDelivers: bool) returns (res: Response, mailed: Option<(string, string)>)
    modifies store
    ensures store.handle == old(store.handle) && store.whitelist == old(store.whitelist) && store.failAt == old(store.failAt)
    ensures old(store.handle).None? ==> res == ServerError && mailed.None? && store.registrations == old(store.registrations)
    ensures old(store.handle).Some? ==>
      Registered(res, store.registrations, mailed)
      == Expected(old(store.whitelist), old(store.registrations), old(store.failAt), old(store.calls), email, random, mailDelivers)
  {
    if store.handle.None? {
      return ServerError, None;
    }
    ghost var regs, c0 := store.registrations, store.calls;
    var whitelisted := store.IsWhitelisted(email);
    if whitelisted.Err? {
      return ServerError, None;
    }
    if !whitelisted.value {
      return Response(403, ErrorBody("not_whitelisted")), None;
    }
    var existing := store.FindRegistration(email);
    if existing.Err? {
      return ServerError, None;
    }
    if existing.value.Some? {
      mailed := Some((email, existing.value.value.token));
      res := if mailDelivers then Response(200, RegisteredBody(true)) else ServerError;
      return;
    }
    var token, k, chose := ChooseToken(store, random);
    if !chose {
      assert !Spared(store.failAt, c0 + 2, Chosen(regs, random, 0) + 2);
      return ServerError, None;
    }
    SparedStep(store.failAt, c0 + 2, k + 1);
    var inserted := store.Insert(email, token);
    if inserted.Err? {
      return ServerError, None;
    }
    mailed := Some((email, token));
    res := if mailDelivers then Response(200, RegisteredBody(false)) else ServerError;
  }

  /** The handler of `POST /api/auth/register`. */
  method RegisterUser(store: Registry, body: Value, random: nat -> byte, mailDelivers: bool) returns (res: Response, mailed: Option<(string, string)>)
    modifies store
    ensures store.handle == old(store.handle) && store.whitelist == old(store.whitelist) && store.failAt == old(store.failAt)
    ensures CheckEmail(body).Unreadable? ==> res == Unhandled && mailed.None? && unchanged(store)
    ensures CheckEmail(body).Invalid? ==>
      res == Response(400, ErrorBody("Invalid email address")) && mailed.None? && unchanged(store)
    ensures CheckEmail(body).Normalized? && old(store.handle).None? ==>
      res == ServerError && mailed.None? && store.registrations == old(store.registrations)
    ensures CheckEmail(body).Normalized? && old(store.handle).Some? ==>
      Registered(res, store.registrations, mailed)
      == Expected(old(store.whitelist), old(store.registrations), old(store.failAt), old(store.calls), CheckEmail(body).email, random, mailDelivers)
  {
    if body.Undefined? || body.Null? {
      return Unhandled, None;
    }
    var email := Get(body, "email");
    if !Truthy(email) {
      return Response(400, ErrorBody("Invalid email address")), None;
    }
    match email {
      case Str(s) =>
        if '@' !in s {
          return Response(400, ErrorBody("Invalid email address")), None;
        }
        var normalized := Trim(Lower(s));
        res, mailed := RegisterEmail(store, normalized, random, mailDelivers);
      case Arr(items) =>
        if Str("@") in items {
          return Unhandled, None;
        }
        return Response(400, ErrorBody("Invalid email address")), None;
      case _ =>
        return Unhandled, None;
    }
  }

  // ---------------------------------------------------------------------------
  // Properties of the registration flow
  // ---------------------------------------------------------------------------

  /** An address that is not whitelisted is refused with 403: nothing is stored, nothing is mailed. */
  lemma NotWhitelistedRefused(whitelist: seq<string>, regs: seq<Registration>, failAt: Option<nat>, calls: nat,
                              email: string, random: nat -> byte, mailDelivers: bool)
    requires email !in whitelist && failAt != Some(calls)
    ensures Expected(whitelist, regs, failAt, calls, email, random, mailDelivers)
      == Registered(Response(403, ErrorBody("not_whitelisted")), regs, None)
  {
  }

  /** An address with a registration gets its stored token mailed again; nothing is inserted,
      and the answer says `resent: true` when the mail goes out. */
  lemma ExistingTokenResent(whitelist: seq<string>, regs: seq<Registration>, failAt: Option<nat>, calls: nat,
                            email: string, random: nat -> byte, mailDelivers: bool)
    requires email in whitelist && Spared(failAt, calls, 2)
    requires RegistrationOf(regs, email).Some?
    ensures var r := Expected(whitelist, regs, failAt, calls, email, random, mailDelivers);
      && r.registrations == regs
      && (exists x :: x in regs && x.email == email && r.mailed == Some((email, x.token)))
      && (r.response.status == 200 <==> mailDelivers)
      && (mailDelivers ==> r.response.body == RegisteredBody(true))
  {
    var x := RegistrationOf(regs, email).value;
    assert x in regs && x.email == email;
  }

  /**
   * A whitelisted address without a registration gets exactly one new row holding a
   * well-formed token, which is the token mailed; the row stays when the mail fails. The
   * token is free unless all ten candidates were taken, and the loop ran at most ten rounds.
   */
  lemma NewTokenIssued(whitelist: seq<string>, regs: seq<Registration>, failAt: Option<nat>, calls: nat,
                       email: string, random: nat -> byte, mailDelivers: bool)
    requires email in whitelist && Spared(failAt, calls, 2) && RegistrationOf(regs, email).None?
    requires Spared(failAt, calls + 2, Chosen(regs, random, 0) + 2)
    ensures var r := Expected(whitelist, regs, failAt, calls, email, random, mailDelivers);
      && r.mailed.Some? && r.mailed.value.0 == email
      && r.registrations == regs + [Registration(email, r.mailed.value.1, false)]
      && WellFormedToken(r.mailed.value.1)
      && (r.response.status == 200 <==> mailDelivers)
      && (mailDelivers ==> r.response.body == RegisteredBody(false))
      && (!mailDelivers ==> r.response == ServerError)
      && (TokenTaken(regs, r.mailed.value.1) ==> forall a :: 0 <= a < MaxAttempts ==> TokenTaken(regs, Candidate(random, a)))
  {
    var k := Chosen(regs, random, 0);
    var token := Candidate(random, k);
    assert Expected(whitelist, regs, failAt, calls, email, random, mailDelivers)
      == Registered(if mailDelivers then Response(200, RegisteredBody(false)) else ServerError,
                    regs + [Registration(email, token, false)], Some((email, token)));
    TokensWellFormed(random, TokenLength * k);
    if TokenTaken(regs, token) {
      assert k == MaxAttempts - 1;
      forall a | 0 <= a < MaxAttempts
        ensures TokenTaken(regs, Candidate(random, a))
      {
        if a == k {
          assert Candidate(random, a) == token;
        }
      }
    }
  }

  /** With every candidate taken, the tenth is inserted anyway: two registrations then hold
      the same token. */
  lemma ExhaustedRetriesDuplicate(whitelist: seq<string>, regs: seq<Registration>, failAt: Option<nat>, calls: nat,
                                  email: string, random: nat -> byte, mailDelivers: bool)
    requires email in whitelist && Spared(failAt, calls, 2) && RegistrationOf(regs, email).None?
    requires Spared(failAt, calls + 2, MaxAttempts + 1)
    requires forall a :: 0 <= a < MaxAttempts ==> TokenTaken(regs, Candidate(random, a))
    ensures var r := Expected(whitelist, regs, failAt, calls, email, random, mailDelivers).registrations;
      |r| == |regs| + 1 && r[|regs|].token == Candidate(random, MaxAttempts - 1)
      && exists i :: 0 <= i < |regs| && r[i].token == r[|regs|].token
  {
    var k := Chosen(regs, random, 0);
    assert k == MaxAttempts - 1;
    var r := Expected(whitelist, regs, failAt, calls, email, random, mailDelivers).registrations;
    assert TokenTaken(regs, Candidate(random, k));
    var x :| x in regs && x.token == Candidate(random, k);
    var i :| 0 <= i < |regs| && regs[i] == x;
    assert r[i] == x;
  }
}
