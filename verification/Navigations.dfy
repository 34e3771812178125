/** Navigation tokens: what ties a report, arriving on whatever connection, to the page load it is about. */
module Navigations {
  import opened Common

  /** A connection's session, by the order in which connections came. */
  type Id = nat

  /** What the server keeps in a session under its mutex. */
  datatype Info = Info(navigation: bool, token: string, reported: bool)

  const UNKNOWN := Info(false, "", false)

  datatype State = State(next: nat, byToken: map<string, Id>, sessions: map<Id, Info>, navigations: seq<Id>)

  const NONE := State(0, map[], map[], [])

  function InfoOf(s: State, id: Id): Info {
    if id in s.sessions then s.sessions[id] else UNKNOWN
  }

  // ---------------------------------------------------------------------------------------------
  // Tokens.

  function Digit36(d: int): char
    requires 0 <= d < 36
  {
    if d < 10 then ('0' as int + d) as char else ('a' as int + d - 10) as char
  }

  function Base36(n: nat): (s: string)
    ensures s != ""
  {
    if n < 36 then [Digit36(n)] else Base36(n / 36) + [Digit36(n % 36)]
  }

  lemma Digit36Injective(c: int, d: int)
    requires 0 <= c < 36 && 0 <= d < 36 && Digit36(c) == Digit36(d)
    ensures c == d
  {
  }

  lemma {:induction false} Base36Injective(m: nat, n: nat)
    requires Base36(m) == Base36(n)
    ensures m == n
  {
    var a, b := Base36(m), Base36(n);
    assert a[|a| - 1] == Digit36(m % 36) && b[|b| - 1] == Digit36(n % 36);
    Digit36Injective(m % 36, n % 36);
    assert a[..|a| - 1] == b[..|b| - 1];
    if m >= 36 && n >= 36 {
      assert a[..|a| - 1] == Base36(m / 36) && b[..|b| - 1] == Base36(n / 36);
      Base36Injective(m / 36, n / 36);
    }
  }

  // ---------------------------------------------------------------------------------------------
  // The operations.

  datatype Error = UnknownNavigation

  /** A session becomes a navigation under the next number. */
  function Minted(s: State, id: Id, reported: bool): State {
    var token := Base36(s.next + 1);
    State(s.next + 1, s.byToken[token := id], s.sessions[id := Info(true, token, reported)], s.navigations + [id])
  }

  /** Somebody loads the page. */
  function LoadPage(s: State, id: Id, token: string): (State, Result<string, Error>) {
    if InfoOf(s, id).navigation then (s, Ok(InfoOf(s, id).token))
    else if token != "" then
      if token in s.byToken then (s, Ok(token)) else (s, Err(UnknownNavigation))
    else (Minted(s, id, InfoOf(s, id).reported), Ok(Base36(s.next + 1)))
  }

  /** A report arrives; the answer is the session it belongs to. */
  function FileReport(s: State, token: string, fallback: Id): (State, Result<Id, Error>) {
    if token != "" then
      if token in s.byToken then
        var target := s.byToken[token];
        (s.(sessions := s.sessions[target := InfoOf(s, target).(reported := true)]), Ok(target))
      else (s, Err(UnknownNavigation))
    else if InfoOf(s, fallback).navigation then
      (s.(sessions := s.sessions[fallback := InfoOf(s, fallback).(reported := true)]), Ok(fallback))
    else (Minted(s, fallback, true), Ok(fallback))
  }

  /** The measurement of the HTTP/1.1 hop arrives; the answer is the session it is attached to. */
  function AttachHTTP1(s: State, token: string): Result<Id, Error> {
    if token in s.byToken then Ok(s.byToken[token]) else Err(UnknownNavigation)
  }

  class Server {
    var nextNavigation: nat
    var navigationByID: map<string, Id>
    var sessions: map<Id, Info>
    var navigations: seq<Id>

    function Model(): State
      reads this
    {
      State(nextNavigation, navigationByID, sessions, navigations)
    }

    constructor ()
      ensures Model() == NONE
    {
      nextNavigation, navigationByID, sessions, navigations := 0, map[], map[], [];
    }

    method SetNavigation(sess: Id, given: string) returns (r: Result<string, Error>)
      modifies this
      ensures (Model(), r) == LoadPage(old(Model()), sess, given)
    {
      var info := InfoOf(Model(), sess);
      if info.navigation {
        return Ok(info.token);
      }
      if given != "" {
        if given !in navigationByID {
          return Err(UnknownNavigation);
        }
        return Ok(given);
      }
      nextNavigation := nextNavigation + 1;
      var token := Base36(nextNavigation);
      sessions := sessions[sess := info.(navigation := true, token := token)];
      navigations := navigations + [sess];
      navigationByID := navigationByID[token := sess];
      return Ok(token);
    }

    method CaptureSession(token: string, fallback: Id) returns (r: Result<Id, Error>)
      modifies this
      ensures (Model(), r) == FileReport(old(Model()), token, fallback)
    {
      if token != "" {
        if token !in navigationByID {
          return Err(UnknownNavigation);
        }
        var target := navigationByID[token];
        sessions := sessions[target := InfoOf(Model(), target).(reported := true)];
        return Ok(target);
      }
      if InfoOf(Model(), fallback).navigation {
        sessions := sessions[fallback := InfoOf(Model(), fallback).(reported := true)];
        return Ok(fallback);
      }
      nextNavigation := nextNavigation + 1;
      var minted := Base36(nextNavigation);
      sessions := sessions[fallback := Info(true, minted, true)];
      navigations := navigations + [fallback];
      navigationByID := navigationByID[minted := fallback];
      return Ok(fallback);
    }
  }

  // ---------------------------------------------------------------------------------------------
  // What every operation keeps.

  /** Tokens and navigations correspond one to one, and every token is one of the numbers given out. */
  ghost predicate TokensNameNavigations(s: State) {
    forall t <- s.byToken :: InfoOf(s, s.byToken[t]).navigation && InfoOf(s, s.byToken[t]).token == t
  }

  ghost predicate NavigationsHaveTokens(s: State) {
    forall id <- s.sessions :: s.sessions[id].navigation ==>
      s.sessions[id].token in s.byToken && s.byToken[s.sessions[id].token] == id
  }

  ghost predicate TokensAreNumbers(s: State) {
    forall t <- s.byToken :: exists n :: Numbered(t, n, s.next)
  }

  ghost predicate Listed(s: State) {
    forall id <- s.navigations :: InfoOf(s, id).navigation
  }

  ghost predicate Inv(s: State) {
    TokensNameNavigations(s) && NavigationsHaveTokens(s) && TokensAreNumbers(s) && Listed(s)
  }

  predicate Numbered(t: string, n: nat, next: nat) {
    1 <= n <= next && t == Base36(n)
  }

  lemma FreshToken(s: State)
    requires Inv(s)
    ensures Base36(s.next + 1) !in s.byToken
  {
    var t := Base36(s.next + 1);
    if t in s.byToken {
      var n :| Numbered(t, n, s.next);
      Base36Injective(n, s.next + 1);
    }
  }

  lemma MintKeepsNumbers(s: State, id: Id, reported: bool)
    requires TokensAreNumbers(s)
    ensures TokensAreNumbers(Minted(s, id, reported))
  {
    hide Base36;
    var m := Minted(s, id, reported);
    forall t | t in m.byToken
      ensures exists n :: Numbered(t, n, m.next)
    {
      if t in s.byToken {
        var n :| Numbered(t, n, s.next);
        assert Numbered(t, n, m.next);
      } else {
        assert Numbered(t, s.next + 1, m.next);
      }
    }
  }

  lemma MintKeepsPairs(s: State, id: Id, reported: bool)
    requires TokensNameNavigations(s) && NavigationsHaveTokens(s) && Listed(s)
    requires !InfoOf(s, id).navigation && Base36(s.next + 1) !in s.byToken
    ensures var m := Minted(s, id, reported); TokensNameNavigations(m) && NavigationsHaveTokens(m) && Listed(m)
  {
    hide Base36;
  }

  lemma MintKeeps(s: State, id: Id, reported: bool)
    requires Inv(s) && !InfoOf(s, id).navigation
    ensures Inv(Minted(s, id, reported))
    ensures forall t <- s.byToken :: t in Minted(s, id, reported).byToken &&
              Minted(s, id, reported).byToken[t] == s.byToken[t]
  {
    FreshToken(s);
    hide Base36, TokensNameNavigations, NavigationsHaveTokens, TokensAreNumbers, Listed;
    MintKeepsNumbers(s, id, reported);
    MintKeepsPairs(s, id, reported);
  }

  datatype Call = Load(id: Id, token: string) | Report(token: string, fallback: Id)

  function After(s: State, c: Call): State {
    match c
    case Load(id, token) => LoadPage(s, id, token).0
    case Report(token, fallback) => FileReport(s, token, fallback).0
  }

  /** Every call keeps the correspondence, and no token changes hands. */
  lemma CallKeeps(s: State, c: Call)
    requires Inv(s)
    ensures Inv(After(s, c))
    ensures forall t <- s.byToken :: t in After(s, c).byToken && After(s, c).byToken[t] == s.byToken[t]
  {
    match c
    case Load(id, token) =>
      if !InfoOf(s, id).navigation && token == "" {
        MintKeeps(s, id, InfoOf(s, id).reported);
      }
    case Report(token, fallback) =>
      if token == "" && !InfoOf(s, fallback).navigation {
        MintKeeps(s, fallback, true);
      } else {
        hide Numbered;
      }
  }

  function AfterAll(s: State, calls: seq<Call>): State {
    if calls == [] then s else After(AfterAll(s, calls[..|calls| - 1]), calls[|calls| - 1])
  }

  lemma {:induction false} CallsKeep(s: State, calls: seq<Call>)
    requires Inv(s)
    ensures Inv(AfterAll(s, calls))
    ensures forall t <- s.byToken :: t in AfterAll(s, calls).byToken && AfterAll(s, calls).byToken[t] == s.byToken[t]
  {
    hide Inv, After;
    if calls != [] {
      CallsKeep(s, calls[..|calls| - 1]);
      CallKeeps(AfterAll(s, calls[..|calls| - 1]), calls[|calls| - 1]);
    }
  }

  lemma NoneIsSound()
    ensures Inv(NONE)
  {
  }

  /** Two tokens never name one session. */
  lemma TokensAreInjective(calls: seq<Call>, t: string, u: string)
    requires t in AfterAll(NONE, calls).byToken && u in AfterAll(NONE, calls).byToken
    ensures AfterAll(NONE, calls).byToken[t] == AfterAll(NONE, calls).byToken[u] <==> t == u
  {
    NoneIsSound();
    CallsKeep(NONE, calls);
    hide AfterAll;
  }

  /** A page that was served a token keeps it for good: a report carrying it, on any connection and after
      anything else that happened, is filed against the session the token was made for, and against no
      other; so is an HTTP/1.1 measurement. A session that is itself a navigation is that session. */
  lemma ReportsReachTheirNavigation(before: seq<Call>, id: Id, token: string, since: seq<Call>, reporter: Id)
    requires LoadPage(AfterAll(NONE, before), id, token).1.Ok?
    ensures var (s, served) := LoadPage(AfterAll(NONE, before), id, token);
            var t, later := served.value, AfterAll(s, since);
            && t in s.byToken && t != ""
            && FileReport(later, t, reporter).1 == Ok(s.byToken[t])
            && AttachHTTP1(later, t) == Ok(s.byToken[t])
            && (InfoOf(s, id).navigation ==> s.byToken[t] == id)
            && (token == "" ==> InfoOf(s, id).navigation)
  {
    NoneIsSound();
    CallsKeep(NONE, before);
    var s0 := AfterAll(NONE, before);
    CallKeeps(s0, Load(id, token));
    var (s, served) := LoadPage(s0, id, token);
    assert s == After(s0, Load(id, token));
    CallsKeep(s, since);
    hide AfterAll, Base36;
    assert served.value in s.byToken;
    TokenIsNotEmpty(s, served.value);
  }

  lemma TokenIsNotEmpty(s: State, t: string)
    requires Inv(s) && t in s.byToken
    ensures t != ""
  {
    var n :| Numbered(t, n, s.next);
  }

  /** A report without a token goes to the connection that brought it, which is a navigation from then on. */
  lemma ReportsWithoutToken(calls: seq<Call>, reporter: Id)
    ensures var (s, r) := FileReport(AfterAll(NONE, calls), "", reporter);
            && r == Ok(reporter)
            && InfoOf(s, reporter).navigation && InfoOf(s, reporter).reported
            && InfoOf(s, reporter).token in s.byToken && s.byToken[InfoOf(s, reporter).token] == reporter
  {
    NoneIsSound();
    CallsKeep(NONE, calls);
    CallKeeps(AfterAll(NONE, calls), Report("", reporter));
    hide AfterAll, Base36;
  }

  // ---------------------------------------------------------------------------------------------
  // What each call answers and changes.

  /** What a digit in base 36 is worth, and a row of them. */
  function Digit36Value(c: char): int {
    if '0' <= c <= '9' then c as int - '0' as int else if 'a' <= c <= 'z' then 10 + (c as int - 'a' as int) else -1
  }

  function NumberOf36(s: string): int {
    if s == "" then 0 else 36 * NumberOf36(s[..|s| - 1]) + Digit36Value(s[|s| - 1])
  }

  /** A token is the number of its navigation in base 36, without a zero in front. */
  lemma {:induction false} Base36Is(n: nat)
    ensures NumberOf36(Base36(n)) == n
    ensures forall c <- Base36(n) :: Digit36Value(c) >= 0
    ensures Base36(n)[0] == '0' <==> n == 0
  {
    var s := Base36(n);
    if n >= 36 {
      Base36Is(n / 36);
      assert s[..|s| - 1] == Base36(n / 36);
    }
  }

  /** A page load, over any history: a connection that is a navigation is served its own token; another that brings
      a known token is served that, and one that brings an unknown token is refused, and nothing changes; one that
      brings none becomes a navigation, under the next number, and only it changes. */
  lemma WhatALoadDoes(calls: seq<Call>, id: Id, token: string)
    ensures var s := AfterAll(NONE, calls);
            var (t, r) := LoadPage(s, id, token);
            && (InfoOf(s, id).navigation ==> t == s && r == Ok(InfoOf(s, id).token))
            && (!InfoOf(s, id).navigation && token != "" && token in s.byToken ==> t == s && r == Ok(token))
            && (!InfoOf(s, id).navigation && token != "" && token !in s.byToken ==>
                  t == s && r == Err(UnknownNavigation))
            && (!InfoOf(s, id).navigation && token == "" ==>
                  && t.next == s.next + 1
                  && r.Ok? && NumberOf36(r.value) == t.next && r.value !in s.byToken
                  && t.byToken == s.byToken[r.value := id]
                  && t.navigations == s.navigations + [id]
                  && InfoOf(t, id) == Info(true, r.value, InfoOf(s, id).reported)
                  && forall other :: other != id ==> InfoOf(t, other) == InfoOf(s, other))
  {
    NoneIsSound();
    CallsKeep(NONE, calls);
    Base36Is(AfterAll(NONE, calls).next + 1);
    hide AfterAll, Base36, NumberOf36;
    if !InfoOf(AfterAll(NONE, calls), id).navigation {
      FreshToken(AfterAll(NONE, calls));
    }
  }

  /** A report, over any history: one that brings an unknown token is refused, and nothing changes; otherwise it
      marks the navigation it is filed with as reported, and no other session; and it makes that a navigation only
      where it brings no token and comes from none. An HTTP/1.1 measurement is attached to the navigation of its token,
      or refused. */
  lemma WhatAReportDoes(calls: seq<Call>, token: string, fallback: Id)
    ensures var s := AfterAll(NONE, calls);
            var (t, r) := FileReport(s, token, fallback);
            && (token != "" && token !in s.byToken ==> t == s && r == Err(UnknownNavigation))
            && (token != "" && token in s.byToken ==> r == Ok(s.byToken[token]))
            && (token == "" ==> r == Ok(fallback))
            && (r.Ok? ==>
                  && InfoOf(t, r.value).reported && InfoOf(t, r.value).navigation
                  && forall other :: other != r.value ==> InfoOf(t, other) == InfoOf(s, other))
            && (r.Ok? && InfoOf(s, r.value).navigation ==>
                  t.next == s.next && t.byToken == s.byToken && t.navigations == s.navigations &&
                  InfoOf(t, r.value).token == InfoOf(s, r.value).token)
            && (r.Ok? && !InfoOf(s, r.value).navigation ==>
                  t.next == s.next + 1 && t.navigations == s.navigations + [fallback] && r.value == fallback &&
                  NumberOf36(InfoOf(t, fallback).token) == t.next)
    ensures AttachHTTP1(AfterAll(NONE, calls), token) ==
            if token in AfterAll(NONE, calls).byToken then Ok(AfterAll(NONE, calls).byToken[token])
            else Err(UnknownNavigation)
  {
    NoneIsSound();
    CallsKeep(NONE, calls);
    Base36Is(AfterAll(NONE, calls).next + 1);
    hide AfterAll, Base36, NumberOf36;
  }
}
