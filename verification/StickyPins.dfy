/**
 Sticky sessions: the cookie that names a backend, and the protocol a client that
 returns its cookie keeps with the balancer over any number of reloads.
 */
module StickyPins {
  import opened Basics
  import opened Backends

  /** Whether a request had the cookie of its configuration, and whether that led to a backend. */
  datatype CookieState = Absent | Known | Unknown

  /** The name of a backend in the cookie: a keyed hash of its address, the same for the life of the balancer. */
  type Token = Str -> Str

  /** The cookie of one configuration: each address's token, and the backend each token names. */
  datatype Pins = Pins(name: Str, tokens: map<Str, Str>, backends: map<Str, Backend>)

  ghost predicate InjectiveOn(token: Token, pool: seq<Backend>) {
    forall b, c :: b in pool && c in pool && token(b.addr) == token(c.addr) ==> b == c
  }

  /** What the pins of a pool are: every address has its token, and a token names a backend it belongs to. */
  ghost predicate ArePins(pins: Pins, token: Token, pool: seq<Backend>) {
    && (forall b :: b in pool ==> b.addr in pins.tokens && pins.tokens[b.addr] == token(b.addr))
    && (forall b :: b in pool ==> token(b.addr) in pins.backends)
    && (forall t :: t in pins.backends ==> pins.backends[t] in pool && token(pins.backends[t].addr) == t)
  }

  /** The pins of a pool; none when sticky sessions are off. */
  method NewPins(sticky: bool, name: Str, token: Token, pool: seq<Backend>) returns (pins: Option<Pins>)
    ensures pins.Some? <==> sticky
    ensures sticky ==> pins.value.name == name && ArePins(pins.value, token, pool)
  {
    if !sticky {
      return None;
    }
    var tokens: map<Str, Str>, backends: map<Str, Backend> := map[], map[];
    for i := 0 to |pool|
      invariant forall b :: b in pool[..i] ==> b.addr in tokens && token(b.addr) in backends
      invariant forall a :: a in tokens ==> tokens[a] == token(a)
      invariant forall t :: t in backends ==> backends[t] in pool && token(backends[t].addr) == t
    {
      var t := token(pool[i].addr);
      tokens := tokens[pool[i].addr := t];
      backends := backends[t := pool[i]];
    }
    assert pool[..|pool|] == pool;
    return Some(Pins(name, tokens, backends));
  }

  /** The cookies a client holds, by name. */
  type Jar = map<Str, Str>

  /** Looks for the cookie of this configuration's name among the client's. */
  function Read(pins: Option<Pins>, jar: Jar): (Option<Backend>, CookieState) {
    if pins.None? || pins.value.name !in jar then (None, Absent)
    else if jar[pins.value.name] in pins.value.backends then (Some(pins.value.backends[jar[pins.value.name]]), Known)
    else (None, Unknown)
  }

  /**
   The value an answer sets the cookie to, unless the client is pinned to the backend
   already or sticky sessions are off.
   */
  function Renew(pins: Option<Pins>, pinned: Option<Backend>, backend: Backend): Option<Str>
    requires pins.Some? ==> backend.addr in pins.value.tokens
  {
    if pins.None? || pinned == Some(backend) then None else Some(pins.value.tokens[backend.addr])
  }

  /** A pinned backend takes precedence over the algorithm's choice while it is a candidate. */
  function Placed(pinned: Option<Backend>, candidates: seq<Backend>, chosen: Option<Backend>): Option<Backend> {
    if pinned.Some? && pinned.value in candidates then pinned else chosen
  }

  /**
   A cookie of the right name leads to a backend only if it is that backend's token,
   and under injective tokens whenever it is.
   */
  lemma ReadNamesTheOwner(pins: Pins, token: Token, pool: seq<Backend>, jar: Jar, b: Backend)
    requires ArePins(pins, token, pool) && b in pool
    ensures Read(Some(pins), jar).0 == Some(b) ==> pins.name in jar && jar[pins.name] == token(b.addr)
    ensures InjectiveOn(token, pool) && pins.name in jar && jar[pins.name] == token(b.addr) ==>
              Read(Some(pins), jar) == (Some(b), Known)
  {
  }

  // ---------------------------------------------------------- conversations

  /**
   One request of a client: the cookie of the configuration it met, if sticky
   sessions were on, its pool, the candidates for the first attempt, what the
   algorithm would have chosen among them, and the backend whose answer the client
   got in the end, if it got one.
   */
  datatype Exchange = Exchange(
    pins: Option<Pins>, pool: seq<Backend>, candidates: seq<Backend>, algorithm: Option<Backend>,
    answered: Option<Backend>)

  ghost predicate Proper(x: Exchange, token: Token) {
    && (x.pins.Some? ==> ArePins(x.pins.value, token, x.pool))
    && (forall b :: b in x.candidates ==> b in x.pool)
    && (x.answered.Some? ==> x.answered.value in x.pool)
  }

  /** A client's requests, one after another. */
  ghost predicate IsConversation(conversation: seq<Exchange>, token: Token) {
    forall x :: x in conversation ==> Proper(x, token)
  }

  /** Sticky sessions were on, under this cookie name. */
  predicate Under(x: Exchange, name: Str) {
    x.pins.Some? && x.pins.value.name == name
  }

  /** Where the first attempt of an exchange goes, given the client's cookies. */
  function FirstAttempt(x: Exchange, jar: Jar): Option<Backend> {
    Placed(Read(x.pins, jar).0, x.candidates, x.algorithm)
  }

  /** The cookie set on the answer, if any. */
  function SetCookie(x: Exchange, jar: Jar): (value: Option<Str>)
    requires x.answered.Some? && x.pins.Some? ==> x.answered.value.addr in x.pins.value.tokens
    ensures value.Some? ==> x.pins.Some? && x.answered.Some?
  {
    if x.answered.None? then None else Renew(x.pins, Read(x.pins, jar).0, x.answered.value)
  }

  /** What the client holds after its first `n` exchanges. */
  ghost function JarAfter(token: Token, conversation: seq<Exchange>, initial: Jar, n: nat): Jar
    requires n <= |conversation| && IsConversation(conversation, token)
  {
    if n == 0 then initial else
      var before, x := JarAfter(token, conversation, initial, n - 1), conversation[n - 1];
      assert x in conversation;
      var value := SetCookie(x, before);
      if value.Some? then before[x.pins.value.name := value.value] else before
  }

  /**
   Whatever cookies a client starts with, after every answer its cookie of that name is
   the token of the backend that answered.
   */
  lemma CookieNamesTheAnswerer(token: Token, conversation: seq<Exchange>, initial: Jar, n: nat)
    requires n < |conversation| && IsConversation(conversation, token)
    requires conversation[n].pins.Some? && conversation[n].answered.Some?
    ensures var (after, name) := (JarAfter(token, conversation, initial, n + 1), conversation[n].pins.value.name);
            name in after && after[name] == token(conversation[n].answered.value.addr)
  {
    var before, x := JarAfter(token, conversation, initial, n), conversation[n];
    assert x in conversation;
    ReadNamesTheOwner(x.pins.value, token, x.pool, before, x.answered.value);
  }

  /** An answer sets a cookie exactly when the client does not hold that backend's token under the name in force. */
  lemma CookieIsSetWhenNeeded(x: Exchange, token: Token, jar: Jar)
    requires Proper(x, token) && InjectiveOn(token, x.pool) && x.answered.Some?
    ensures SetCookie(x, jar).Some?
       <==> x.pins.Some? && !(x.pins.value.name in jar && jar[x.pins.value.name] == token(x.answered.value.addr))
  {
    if x.pins.Some? {
      ReadNamesTheOwner(x.pins.value, token, x.pool, jar, x.answered.value);
    }
  }

  /** The backend at `addr` is still in the pool and a candidate, and answers what it is asked first. */
  ghost predicate KeepsAnswering(x: Exchange, token: Token, addr: Str, jar: Jar) {
    && InjectiveOn(token, x.pool)
    && exists b :: b in x.candidates && b.addr == addr && (FirstAttempt(x, jar) == Some(b) ==> x.answered == Some(b))
  }

  /** The request went to the backend at `addr`, which answered it, and no cookie was set. */
  ghost predicate StayedAt(x: Exchange, addr: Str, jar: Jar) {
    && x.answered.Some? && x.answered.value.addr == addr
    && FirstAttempt(x, jar) == x.answered
    && x.pins.Some? && x.answered.value.addr in x.pins.value.tokens && SetCookie(x, jar) == None
  }

  lemma OnceMore(x: Exchange, token: Token, addr: Str, jar: Jar)
    requires Proper(x, token) && x.pins.Some? && x.pins.value.name in jar && jar[x.pins.value.name] == token(addr)
    requires KeepsAnswering(x, token, addr, jar)
    ensures StayedAt(x, addr, jar)
  {
    var b :| b in x.candidates && b.addr == addr && (FirstAttempt(x, jar) == Some(b) ==> x.answered == Some(b));
    ReadNamesTheOwner(x.pins.value, token, x.pool, jar, b);
  }

  /** Exchange `k` finds the backend at `addr` still answering. */
  ghost predicate StillThere(token: Token, conversation: seq<Exchange>, initial: Jar, addr: Str, k: nat)
    requires k < |conversation| && IsConversation(conversation, token)
  {
    KeepsAnswering(conversation[k], token, addr, JarAfter(token, conversation, initial, k))
  }

  /** Exchange `k` went to the backend at `addr` under the cookies the client held. */
  ghost predicate WentThere(token: Token, conversation: seq<Exchange>, initial: Jar, addr: Str, k: nat)
    requires k < |conversation| && IsConversation(conversation, token)
  {
    StayedAt(conversation[k], addr, JarAfter(token, conversation, initial, k))
  }

  /**
   Once a backend has answered under a cookie name, then whenever that name is in
   force, and for as long as the backend is then a candidate and answers, requests
   go to it and no cookie is set; whatever happens in between under other names, or
   with sticky sessions off, and over any reloads.
   */
  lemma {:induction false} StaysPinned(token: Token, conversation: seq<Exchange>, initial: Jar, from: nat, n: nat,
                                       name: Str)
    requires from < n <= |conversation| && IsConversation(conversation, token)
    requires Under(conversation[from], name) && conversation[from].answered.Some?
    requires forall k :: from < k < n && Under(conversation[k], name) ==>
               StillThere(token, conversation, initial, conversation[from].answered.value.addr, k)
    ensures name in JarAfter(token, conversation, initial, n)
    ensures JarAfter(token, conversation, initial, n)[name] == token(conversation[from].answered.value.addr)
    ensures forall k :: from < k < n && Under(conversation[k], name) ==>
              WentThere(token, conversation, initial, conversation[from].answered.value.addr, k)
  {
    var addr := conversation[from].answered.value.addr;
    if n == from + 1 {
      CookieNamesTheAnswerer(token, conversation, initial, from);
    } else {
      StaysPinned(token, conversation, initial, from, n - 1, name);
      assert conversation[n - 1] in conversation;
      if Under(conversation[n - 1], name) {
        assert StillThere(token, conversation, initial, addr, n - 1);
        OnceMore(conversation[n - 1], token, addr, JarAfter(token, conversation, initial, n - 1));
      }
    }
  }

  /** A client holds no cookie of a name under which it was never answered, unless it came with one. */
  lemma {:induction false} NoCookieYet(token: Token, conversation: seq<Exchange>, initial: Jar, n: nat, name: Str)
    requires n <= |conversation| && IsConversation(conversation, token) && name !in initial
    requires forall k :: 0 <= k < n && Under(conversation[k], name) ==> conversation[k].answered.None?
    ensures name !in JarAfter(token, conversation, initial, n)
  {
    if n > 0 {
      NoCookieYet(token, conversation, initial, n - 1, name);
    }
  }

  /**
   A reload that renames the cookie unpins every client: its first request under
   the new name is placed by the algorithm, whatever it holds under the old one,
   and the answer pins it to the backend that answered, under the new name.
   */
  lemma RenamingUnpins(token: Token, conversation: seq<Exchange>, initial: Jar, n: nat, name: Str)
    requires n < |conversation| && IsConversation(conversation, token) && name !in initial
    requires Under(conversation[n], name)
    requires forall k :: 0 <= k < n && Under(conversation[k], name) ==> conversation[k].answered.None?
    ensures FirstAttempt(conversation[n], JarAfter(token, conversation, initial, n)) == conversation[n].algorithm
    ensures conversation[n].answered.Some? ==>
              && conversation[n].answered.value.addr in conversation[n].pins.value.tokens
              && SetCookie(conversation[n], JarAfter(token, conversation, initial, n))
              == Some(token(conversation[n].answered.value.addr))
  {
    assert conversation[n] in conversation;
    NoCookieYet(token, conversation, initial, n, name);
  }
}
