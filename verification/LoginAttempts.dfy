/** app/repositories/login_attempt.py: recording login attempts, counting the
    failures behind a lockout, and forgetting old ones. */
module LoginAttempts {
  import opened Numerals
  import opened Text

  type Time = real

  const MINUTE: Time := 60.0
  const DAY: Time := 86400.0

  const TENANT_MARK := "@tenant:"

  datatype Attempt = Attempt(identifier: string, ip: string, success: bool, at: Time)

  function Normalize(email: string): string {
    Strip(Lower(email))
  }

  /** `f"{normalized_email}@tenant:{tenant_id}"` */
  function Identifier(email: string, tenant: int): string {
    email + TENANT_MARK + IntText(tenant)
  }

  // ---------------------------------------------------------------- counting

  /** SQL `s LIKE p`, with the default escape character. */
  predicate Like(s: string, p: string)
    decreases |s| + |p|
  {
    if p == "" then s == ""
    else if p[0] == '%' then Like(s, p[1..]) || (s != "" && Like(s[1..], p))
    else if p[0] == '_' then s != "" && Like(s[1..], p[1..])
    else if p[0] == '\\' && |p| > 1 then s != "" && s[0] == p[1] && Like(s[1..], p[2..])
    else s != "" && s[0] == p[0] && Like(s[1..], p[1..])
  }

  /** The WHERE clause on the identifier. */
  datatype Filter = Equals(identifier: string) | Matches(pattern: string) {
    /** ... on failures from the cutoff on. */
    predicate Selects(a: Attempt, cutoff: Time) {
      !a.success && a.at >= cutoff && match this
        case Equals(identifier) => a.identifier == identifier
        case Matches(pattern) => Like(a.identifier, pattern)
    }
  }

  function Count(rows: seq<Attempt>, f: Filter, cutoff: Time): nat {
    if rows == [] then 0 else
      Count(rows[..|rows| - 1], f, cutoff) + if f.Selects(rows[|rows| - 1], cutoff) then 1 else 0
  }

  function CountRecentFailures(rows: seq<Attempt>, email: string, tenant: int, minutes: int, now: Time): nat {
    Count(rows, Equals(Identifier(Normalize(email), tenant)), now - minutes as real * MINUTE)
  }

  predicate IsLockedOut(rows: seq<Attempt>, email: string, tenant: int, maxAttempts: int, minutes: int, now: Time) {
    CountRecentFailures(rows, email, tenant, minutes, now) >= maxAttempts
  }

  /** `count_recent_failed`: the failures of an email in all tenants. */
  function CountRecentFailed(rows: seq<Attempt>, email: string, minutes: int, now: Time): nat {
    Count(rows, AllTenants(Normalize(email)), now - minutes as real * MINUTE)
  }

  function AllTenants(email: string): Filter {
    Matches(email + TENANT_MARK + "%")
  }

  function KeepSince(rows: seq<Attempt>, cutoff: Time): seq<Attempt> {
    if rows == [] then [] else
      var n := |rows| - 1;
      KeepSince(rows[..n], cutoff) + if rows[n].at < cutoff then [] else [rows[n]]
  }

  class LoginAttemptRepository {
    var rows: seq<Attempt>

    constructor ()
      ensures rows == []
    {
      rows := [];
    }

    method RecordAttempt(email: string, tenant: int, success: bool, ip: string, now: Time) returns (a: Attempt)
      modifies this
      ensures a == Attempt(Identifier(Normalize(email), tenant), ip, success, now)
      ensures rows == old(rows) + [a]
    {
      var normalizedEmail := Normalize(email);
      a := Attempt(Identifier(normalizedEmail, tenant), ip, success, now);
      rows := rows + [a];
    }

    method CleanupOldAttempts(days: int, now: Time) returns (deleted: nat)
      modifies this
      ensures rows == KeepSince(old(rows), now - days as real * DAY)
      ensures deleted == |old(rows)| - |rows|
    {
      var cutoff := now - days as real * DAY;
      var before := |rows|;
      KeepSinceShrinks(rows, cutoff);
      rows := KeepSince(rows, cutoff);
      deleted := before - |rows|;
    }
  }

  lemma {:induction false} KeepSinceShrinks(rows: seq<Attempt>, cutoff: Time)
    ensures |KeepSince(rows, cutoff)| <= |rows|
  {
    if rows != [] {
      KeepSinceShrinks(rows[..|rows| - 1], cutoff);
    }
  }

  /** A normalized email is the email in lower case without the spaces around it. */
  lemma NormalizeTrims(email: string) returns (i: nat, j: nat)
    ensures i <= j <= |email| && |Normalize(email)| == j - i
    ensures forall k :: i <= k < j ==> Normalize(email)[k - i] == LowerChar(email[k])
    ensures forall k :: 0 <= k < |email| && !(i <= k < j) ==> IsSpace(LowerChar(email[k]))
    ensures i < j ==> !IsSpace(Normalize(email)[0]) && !IsSpace(Normalize(email)[j - i - 1])
  {
    i, j := StripTrims(Lower(email));
  }

  lemma {:induction false} StripTrims(s: string) returns (i: nat, j: nat)
    ensures i <= j <= |s| && Strip(s) == s[i..j]
    ensures forall k :: 0 <= k < |s| && !(i <= k < j) ==> IsSpace(s[k])
    ensures i < j ==> !IsSpace(s[i]) && !IsSpace(s[j - 1])
  {
    i, j := 0, |s|;
    if s != "" {
      if IsSpace(s[0]) {
        i, j := StripTrims(s[1..]);
        forall k | 0 < k < |s| ensures s[k] == s[1..][k - 1] {
        }
        i, j := i + 1, j + 1;
      } else if IsSpace(s[|s| - 1]) {
        i, j := StripTrims(s[..|s| - 1]);
      }
    }
  }

  /** The attempts a cleanup keeps are those from the cutoff on, in order. */
  lemma {:induction false} KeepSinceInOrder(a: seq<Attempt>, b: seq<Attempt>, row: Attempt, cutoff: Time)
    ensures KeepSince(a + b, cutoff) == KeepSince(a, cutoff) + KeepSince(b, cutoff)
    ensures KeepSince([row], cutoff) == if row.at >= cutoff then [row] else []
  {
    assert [row][..0] == [];
    if b == [] {
      assert a + b == a;
    } else {
      var n := |b| - 1;
      assert (a + b)[..|a + b| - 1] == a + b[..n];
      KeepSinceInOrder(a, b[..n], row, cutoff);
    }
  }

  // ---------------------------------------------------------------- encoding

  lemma NumberHasNoAt(n: int)
    ensures '@' !in IntText(n)
  {
  }

  lemma MarkStarts(email: string, tenant: int)
    ensures Identifier(email, tenant)[|email|] == '@'
  {
  }

  /** No '@' follows the one that begins the tenant mark. */
  lemma MarkIsLast(email: string, tenant: int, k: nat)
    requires |email| < k < |Identifier(email, tenant)|
    ensures Identifier(email, tenant)[k] != '@'
  {
    NumberHasNoAt(tenant);
    var s := Identifier(email, tenant);
    if k < |email| + |TENANT_MARK| {
      assert s[k] == TENANT_MARK[k - |email|];
    } else {
      assert s[k] == IntText(tenant)[k - |email| - |TENANT_MARK|];
    }
  }

  /** (email, tenant) -> identifier is injective, for any emails at all. */
  lemma IdentifierInjective(email: string, tenant: int, email': string, tenant': int)
    requires Identifier(email, tenant) == Identifier(email', tenant')
    ensures email == email' && tenant == tenant'
  {
    var s := Identifier(email, tenant);
    MarkStarts(email, tenant);
    MarkStarts(email', tenant');
    if |email| < |email'| {
      MarkIsLast(email, tenant, |email'|);
    } else if |email'| < |email| {
      MarkIsLast(email', tenant', |email|);
    }
    var n := |email| + |TENANT_MARK|;
    assert email == s[..|email|] == email' && IntText(tenant) == s[n..] == IntText(tenant');
    IntTextInjective(tenant, tenant');
  }

  predicate MetaFree(s: string) {
    forall i :: 0 <= i < |s| ==> s[i] !in ['%', '_', '\\']
  }

  lemma {:induction false} LikeAnything(s: string)
    ensures Like(s, "%")
  {
    if s != "" {
      LikeAnything(s[1..]);
    }
  }

  /** Neither `%` nor a backslash: of the metacharacters only `_` may occur. */
  predicate UnderscoreOnly(s: string) {
    forall i :: 0 <= i < |s| ==> s[i] != '%' && s[i] != '\\'
  }

  /** s begins like p, an underscore in p standing for any character. */
  predicate Fits(s: string, p: string) {
    |p| <= |s| && forall i :: 0 <= i < |p| ==> p[i] == '_' || s[i] == p[i]
  }

  lemma FitsCons(s: string, p: string)
    requires s != "" && p != ""
    ensures Fits(s, p) <==> (p[0] == '_' || s[0] == p[0]) && Fits(s[1..], p[1..])
  {
    if (p[0] == '_' || s[0] == p[0]) && Fits(s[1..], p[1..]) {
      forall i | 0 <= i < |p| ensures p[i] == '_' || s[i] == p[i] {
        assert i > 0 ==> p[1..][i - 1] == p[i] && s[1..][i - 1] == s[i];
      }
    }
    if Fits(s, p) {
      forall i | 0 <= i < |p| - 1 ensures p[1..][i] == '_' || s[1..][i] == p[1..][i] {
        assert p[1..][i] == p[i + 1] && s[1..][i] == s[i + 1];
      }
    }
  }

  /** Such a pattern, then `%`, matches exactly the texts that fit it. */
  lemma {:induction false} LikeFits(s: string, p: string)
    requires UnderscoreOnly(p)
    ensures Like(s, p + "%") <==> Fits(s, p)
  {
    if p == "" {
      assert p + "%" == "%";
      LikeAnything(s);
    } else {
      assert (p + "%")[0] == p[0] && (p + "%")[1..] == p[1..] + "%";
      if s != "" {
        LikeFits(s[1..], p[1..]);
        FitsCons(s, p);
      }
    }
  }

  /** An identifier fits `email@tenant:` exactly if it was made for an email of
      the same length that fits, or one that fits with a mark of its own. */
  lemma MarkedFitsIff(email: string, email': string, tenant: int)
    ensures Fits(Identifier(email', tenant), email + TENANT_MARK)
      <==> (|email'| == |email| && Fits(email', email)) || Fits(email', email + TENANT_MARK)
  {
    if |email'| == |email| {
      SameLengthFits(email, email', tenant);
    } else if |email'| < |email| + |TENANT_MARK| {
      MisalignedMark(email, email', tenant);
    } else {
      LongerFits(email, email', tenant);
    }
  }

  lemma SameLengthFits(email: string, email': string, tenant: int)
    requires |email'| == |email|
    ensures Fits(Identifier(email', tenant), email + TENANT_MARK) <==> Fits(email', email)
  {
    var s, p := Identifier(email', tenant), email + TENANT_MARK;
    forall i | 0 <= i < |p| ensures i < |email| ==> s[i] == email'[i] && p[i] == email[i]
      ensures i >= |email| ==> s[i] == p[i]
    {
      if i >= |email| {
        assert s[i] == TENANT_MARK[i - |email|] == p[i];
      }
    }
  }

  lemma LongerFits(email: string, email': string, tenant: int)
    requires |email| + |TENANT_MARK| <= |email'|
    ensures Fits(Identifier(email', tenant), email + TENANT_MARK) <==> Fits(email', email + TENANT_MARK)
  {
    var s := Identifier(email', tenant);
    forall i | 0 <= i < |email'| ensures s[i] == email'[i] {
    }
  }

  /** The '@' of the pattern's mark would stand where the identifier has none,
      or the other way round. */
  lemma MisalignedMark(email: string, email': string, tenant: int)
    requires |email'| < |email| + |TENANT_MARK| && |email'| != |email|
    ensures !Fits(Identifier(email', tenant), email + TENANT_MARK)
  {
    var s, p := Identifier(email', tenant), email + TENANT_MARK;
    if |email'| > |email| {
      MarkStarts(email', tenant);
      assert p[|email'|] == TENANT_MARK[|email'| - |email|];
      assert p[|email'|] != '_' && s[|email'|] != p[|email'|];
    } else {
      assert p[|email|] == '@';
      if |email| < |s| {
        MarkIsLast(email', tenant, |email|);
      }
    }
  }

  // ------------------------------------------------- all tenants, one tenant

  /** What the service passes to `record_attempt`. */
  datatype Login = Login(email: string, tenant: int, success: bool, ip: string, at: Time)

  function RowOf(l: Login): Attempt {
    Attempt(Identifier(Normalize(l.email), l.tenant), l.ip, l.success, l.at)
  }

  function RowsOf(logins: seq<Login>): (rows: seq<Attempt>)
    ensures |rows| == |logins| && forall i :: 0 <= i < |logins| ==> rows[i] == RowOf(logins[i])
  {
    seq(|logins|, i requires 0 <= i < |logins| => RowOf(logins[i]))
  }

  /** The per-tenant counts, summed. */
  function SumOverTenants(rows: seq<Attempt>, email: string, tenants: seq<int>, minutes: int, now: Time): nat {
    if tenants == [] then 0 else
      CountRecentFailures(rows, email, tenants[0], minutes, now)
      + SumOverTenants(rows, email, tenants[1..], minutes, now)
  }

  ghost predicate Distinct(s: seq<int>) {
    forall i, j :: 0 <= i < j < |s| ==> s[i] != s[j]
  }

  predicate RecentlyFailed(l: Login, minutes: int, now: Time) {
    !l.success && l.at >= now - minutes as real * MINUTE
  }

  /** The row of the login is LIKE the pattern made of the email. */
  predicate Matched(l: Login, email: string) {
    Like(RowOf(l).identifier, Normalize(email) + TENANT_MARK + "%")
  }

  predicate Own(l: Login, email: string) {
    Normalize(l.email) == Normalize(email)
  }

  /** A failure of another email, counted with this one's. */
  predicate Stranger(l: Login, email: string, minutes: int, now: Time) {
    RecentlyFailed(l, minutes, now) && !Own(l, email) && Matched(l, email)
  }

  /** A failure of this email that the pattern misses. */
  predicate Missing(l: Login, email: string, minutes: int, now: Time) {
    RecentlyFailed(l, minutes, now) && Own(l, email) && !Matched(l, email)
  }

  function Strangers(logins: seq<Login>, email: string, minutes: int, now: Time): nat {
    if logins == [] then 0 else
      Strangers(logins[..|logins| - 1], email, minutes, now)
      + if Stranger(logins[|logins| - 1], email, minutes, now) then 1 else 0
  }

  function Missed(logins: seq<Login>, email: string, minutes: int, now: Time): nat {
    if logins == [] then 0 else
      Missed(logins[..|logins| - 1], email, minutes, now)
      + if Missing(logins[|logins| - 1], email, minutes, now) then 1 else 0
  }

  lemma CountAppend(rows: seq<Attempt>, row: Attempt, f: Filter, cutoff: Time)
    ensures Count(rows + [row], f, cutoff) == Count(rows, f, cutoff) + if f.Selects(row, cutoff) then 1 else 0
  {
    assert (rows + [row])[..|rows|] == rows;
  }

  lemma TenantCountAppend(rows: seq<Attempt>, l: Login, email: string, tenant: int, minutes: int, now: Time)
    ensures CountRecentFailures(rows + [RowOf(l)], email, tenant, minutes, now)
         == CountRecentFailures(rows, email, tenant, minutes, now)
            + if RecentlyFailed(l, minutes, now) && Own(l, email) && l.tenant == tenant then 1 else 0
  {
    CountAppend(rows, RowOf(l), Equals(Identifier(Normalize(email), tenant)), now - minutes as real * MINUTE);
    if Identifier(Normalize(l.email), l.tenant) == Identifier(Normalize(email), tenant) {
      IdentifierInjective(Normalize(l.email), l.tenant, Normalize(email), tenant);
    }
  }

  lemma {:induction false} SumAppend(
      rows: seq<Attempt>, l: Login, email: string, tenants: seq<int>, minutes: int, now: Time)
    requires Distinct(tenants)
    ensures SumOverTenants(rows + [RowOf(l)], email, tenants, minutes, now)
         == SumOverTenants(rows, email, tenants, minutes, now)
            + if RecentlyFailed(l, minutes, now) && Own(l, email) && l.tenant in tenants then 1 else 0
  {
    if tenants != [] {
      TenantCountAppend(rows, l, email, tenants[0], minutes, now);
      SumAppend(rows, l, email, tenants[1..], minutes, now);
      assert l.tenant in tenants <==> l.tenant == tenants[0] || l.tenant in tenants[1..];
      assert tenants[0] !in tenants[1..];
    }
  }

  lemma {:induction false} SumOfNothing(email: string, tenants: seq<int>, minutes: int, now: Time)
    ensures SumOverTenants([], email, tenants, minutes, now) == 0
  {
    if tenants != [] {
      SumOfNothing(email, tenants[1..], minutes, now);
    }
  }

  lemma RowsOfStep(logins: seq<Login>)
    requires logins != []
    ensures RowsOf(logins) == RowsOf(logins[..|logins| - 1]) + [RowOf(logins[|logins| - 1])]
  {
    var n := |logins| - 1;
    var rows, front := RowsOf(logins), RowsOf(logins[..n]);
    forall i | 0 <= i < n ensures rows[i] == front[i] {
      assert front[i] == RowOf(logins[..n][i]);
    }
    assert rows == rows[..n] + [rows[n]] && rows[..n] == front;
  }

  /** For every email: the all-tenant count and the failures its pattern misses
      make up the per-tenant counts and the strangers. */
  lemma {:induction false} AllTenantCount(logins: seq<Login>, email: string, tenants: seq<int>, minutes: int, now: Time)
    requires Distinct(tenants) && forall i :: 0 <= i < |logins| ==> logins[i].tenant in tenants
    ensures CountRecentFailed(RowsOf(logins), email, minutes, now) + Missed(logins, email, minutes, now)
         == SumOverTenants(RowsOf(logins), email, tenants, minutes, now) + Strangers(logins, email, minutes, now)
  {
    if logins == [] {
      SumOfNothing(email, tenants, minutes, now);
    } else {
      var n := |logins| - 1;
      var l, rows := logins[n], RowsOf(logins[..n]);
      AllTenantCount(logins[..n], email, tenants, minutes, now);
      RowsOfStep(logins);
      CountAppend(rows, RowOf(l), AllTenants(Normalize(email)), now - minutes as real * MINUTE);
      SumAppend(rows, l, email, tenants, minutes, now);
    }
  }

  predicate BackslashFree(s: string) {
    forall i :: 0 <= i < |s| ==> s[i] != '\\'
  }

  /** A text without backslashes, read as a pattern, matches itself. */
  lemma {:induction false} LikePrepend(literal: string, s: string, p: string)
    requires BackslashFree(literal) && Like(s, p)
    ensures Like(literal + s, literal + p)
  {
    if literal == "" {
      assert literal + s == s && literal + p == p;
    } else {
      LikePrepend(literal[1..], s, p);
      assert (literal + s)[1..] == literal[1..] + s && (literal + p)[1..] == literal[1..] + p;
      assert literal[0] == '%' ==> Like((literal + s)[1..], literal + p);
    }
  }

  lemma OwnIsMatched(l: Login, email: string)
    requires BackslashFree(Normalize(email)) && Own(l, email)
    ensures Matched(l, email)
  {
    var p := Normalize(email) + TENANT_MARK;
    LikeAnything(IntText(l.tenant));
    LikePrepend(p, IntText(l.tenant), "%");
    assert RowOf(l).identifier == p + IntText(l.tenant);
  }

  lemma {:induction false} NothingMissed(logins: seq<Login>, email: string, minutes: int, now: Time)
    requires BackslashFree(Normalize(email))
    ensures Missed(logins, email, minutes, now) == 0
  {
    if logins != [] {
      var n := |logins| - 1;
      NothingMissed(logins[..n], email, minutes, now);
      if Own(logins[n], email) {
        OwnIsMatched(logins[n], email);
      }
    }
  }

  lemma {:induction false} NoStrangers(logins: seq<Login>, email: string, minutes: int, now: Time)
    ensures Strangers(logins, email, minutes, now) == 0
      <==> forall i :: 0 <= i < |logins| ==> !Stranger(logins[i], email, minutes, now)
  {
    if logins != [] {
      var n := |logins| - 1;
      NoStrangers(logins[..n], email, minutes, now);
      assert forall i :: 0 <= i < n ==> logins[..n][i] == logins[i];
    }
  }

  /** The counts agree exactly if no recent failure of another email is LIKE
      this one's pattern. An email with a backslash can also miss its own
      failures; then they agree exactly if as many are missed as are strangers. */
  lemma AllTenantCountIff(logins: seq<Login>, email: string, tenants: seq<int>, minutes: int, now: Time)
    requires Distinct(tenants) && forall i :: 0 <= i < |logins| ==> logins[i].tenant in tenants
    ensures var agree := CountRecentFailed(RowsOf(logins), email, minutes, now)
                         == SumOverTenants(RowsOf(logins), email, tenants, minutes, now);
      && (agree <==> Missed(logins, email, minutes, now) == Strangers(logins, email, minutes, now))
      && (BackslashFree(Normalize(email)) ==>
            (agree <==> forall i :: 0 <= i < |logins| ==> !Stranger(logins[i], email, minutes, now)))
  {
    AllTenantCount(logins, email, tenants, minutes, now);
    NoStrangers(logins, email, minutes, now);
    if BackslashFree(Normalize(email)) {
      NothingMissed(logins, email, minutes, now);
    }
  }

  /** For an email without `%` and backslash, the strangers are the other emails
      of its length that agree with it off its underscores, and those that
      continue such an agreement with a mark of their own. */
  lemma StrangerIff(l: Login, email: string, minutes: int, now: Time)
    requires UnderscoreOnly(Normalize(email))
    ensures var (e, other) := (Normalize(email), Normalize(l.email));
      Stranger(l, email, minutes, now)
      <==> RecentlyFailed(l, minutes, now) && other != e
           && ((|other| == |e| && Fits(other, e)) || Fits(other, e + TENANT_MARK))
  {
    MatchedIff(l, email);
  }

  lemma MatchedIff(l: Login, email: string)
    requires UnderscoreOnly(Normalize(email))
    ensures var (e, other) := (Normalize(email), Normalize(l.email));
      Matched(l, email) <==> (|other| == |e| && Fits(other, e)) || Fits(other, e + TENANT_MARK)
  {
    LikeFits(RowOf(l).identifier, Normalize(email) + TENANT_MARK);
    MarkedFitsIff(Normalize(email), Normalize(l.email), l.tenant);
  }

  /** The login schema admits no email with a second '@', hence none with the
      mark; there the counts agree for every email free of metacharacters. */
  lemma PlainCountsAgree(logins: seq<Login>, email: string, tenants: seq<int>, minutes: int, now: Time)
    requires Distinct(tenants) && forall i :: 0 <= i < |logins| ==> logins[i].tenant in tenants
    requires MetaFree(Normalize(email))
    requires forall i :: 0 <= i < |logins| ==> !Occurs(TENANT_MARK, Normalize(logins[i].email))
    ensures CountRecentFailed(RowsOf(logins), email, minutes, now)
         == SumOverTenants(RowsOf(logins), email, tenants, minutes, now)
  {
    AllTenantCountIff(logins, email, tenants, minutes, now);
    forall i | 0 <= i < |logins| ensures !Stranger(logins[i], email, minutes, now) {
      StrangerIff(logins[i], email, minutes, now);
      if Fits(Normalize(logins[i].email), Normalize(email)) {
        FitsExactly(Normalize(logins[i].email), Normalize(email));
      }
      if Fits(Normalize(logins[i].email), Normalize(email) + TENANT_MARK) {
        MarkOccurs(Normalize(logins[i].email), Normalize(email));
      }
    }
  }

  lemma FitsExactly(s: string, p: string)
    requires MetaFree(p) && Fits(s, p)
    ensures |s| == |p| ==> s == p
  {
  }

  lemma MarkOccurs(s: string, email: string)
    requires Fits(s, email + TENANT_MARK)
    ensures Occurs(TENANT_MARK, s)
  {
    var p, n := email + TENANT_MARK, |email|;
    forall i | 0 <= i < |TENANT_MARK| ensures s[n + i] == TENANT_MARK[i] {
      assert p[n + i] == TENANT_MARK[i] && TENANT_MARK[i] != '_';
    }
    assert s[n..n + |TENANT_MARK|] == TENANT_MARK;
    assert OccursAt(TENANT_MARK, s, n);
  }

  lemma {:induction false} LikeStrip(literal: string, s: string, p: string)
    requires MetaFree(literal)
    ensures Like(literal + s, literal + p) <==> Like(s, p)
  {
    if literal == "" {
      assert literal + s == s && literal + p == p;
    } else {
      LikeStrip(literal[1..], s, p);
      assert (literal + s)[1..] == literal[1..] + s && (literal + p)[1..] == literal[1..] + p;
    }
  }

  /** An escaped character matches itself only. */
  lemma EscapeMatches(c: char, s: string, p: string)
    ensures Like(s, "\\" + [c] + p) <==> exists rest :: s == [c] + rest && Like(rest, p)
  {
    var q := "\\" + [c] + p;
    assert q[2..] == p;
    if s != "" && s[0] == c {
      assert s == [c] + s[1..];
    }
    forall rest | s == [c] + rest && Like(rest, p) ensures Like(s, q) {
      assert s[1..] == rest;
    }
  }

  /** A backslash in an email escapes the character after it, so the pattern
      misses the email's own failures. */
  lemma BackslashMisses(front: string, c: char, back: string, tail: string)
    requires MetaFree(front) && c != '\\'
    ensures !Like(front + ("\\" + [c] + back), front + ("\\" + [c] + tail))
  {
    LikeStrip(front, "\\" + [c] + back, "\\" + [c] + tail);
  }

  /** An underscore in an email stands for any character, so the failures of
      every email that differs from it there only are counted with it. */
  lemma UnderscoreMatches(front: string, c: char, back: string, tenant: int)
    requires BackslashFree(front) && BackslashFree(back)
    ensures Like(Identifier(front + [c] + back, tenant), (front + "_" + back) + TENANT_MARK + "%")
  {
    var rest, pattern := back + TENANT_MARK + IntText(tenant), back + TENANT_MARK + "%";
    LikeAnything(IntText(tenant));
    LikePrepend(back + TENANT_MARK, IntText(tenant), "%");
    LikeOneCharacter(c, rest, pattern);
    LikePrepend(front, [c] + rest, "_" + pattern);
    Regroup(front, [c], back, TENANT_MARK, IntText(tenant));
    Regroup(front, "_", back, TENANT_MARK, "%");
  }

  lemma LikeOneCharacter(c: char, s: string, p: string)
    requires Like(s, p)
    ensures Like([c] + s, "_" + p)
  {
    assert ([c] + s)[1..] == s && ("_" + p)[1..] == p;
  }

  lemma Regroup(a: string, b: string, c: string, d: string, e: string)
    ensures a + (b + (c + d + e)) == (a + b + c) + d + e
  {
  }

  lemma NormalizeAddress(local: string)
    requires local in ["john_doe", "john.doe"]
    ensures Normalize(local + "@x.com") == local + "@x.com"
  {
    var s := local + "@x.com";
    assert Lower(s) == s;
    assert Strip(s) == s;
  }

  lemma OneStranger(l: Login, email: string, minutes: nat, now: Time)
    requires Stranger(l, email, minutes, now)
    ensures CountRecentFailed(RowsOf([l]), email, minutes, now) == 1
    ensures SumOverTenants(RowsOf([l]), email, [l.tenant], minutes, now) == 0
  {
    assert RowsOf([l]) == [] + [RowOf(l)];
    CountAppend([], RowOf(l), AllTenants(Normalize(email)), now - minutes as real * MINUTE);
    TenantCountAppend([], l, email, l.tenant, minutes, now);
  }

  lemma JohnDoeMatches(tenant: int)
    ensures Like(Identifier("john.doe" + "@x.com", tenant), ("john_doe" + "@x.com") + TENANT_MARK + "%")
  {
    UnderscoreMatches("john", '.', "doe@x.com", tenant);
    assert "john" + ['.'] + "doe@x.com" == "john.doe" + "@x.com";
    assert "john" + "_" + "doe@x.com" == "john_doe" + "@x.com";
  }

  /** One failure of john.doe@x.com counts for john_doe@x.com, in no tenant. */
  lemma JohnDoe(tenant: int, ip: string, minutes: nat, now: Time)
    ensures var rows := RowsOf([Login("john.doe" + "@x.com", tenant, false, ip, now)]);
      && CountRecentFailed(rows, "john_doe" + "@x.com", minutes, now) == 1
      && SumOverTenants(rows, "john_doe" + "@x.com", [tenant], minutes, now) == 0
  {
    var l, email := Login("john.doe" + "@x.com", tenant, false, ip, now), "john_doe" + "@x.com";
    NormalizeAddress("john.doe");
    NormalizeAddress("john_doe");
    JohnDoeMatches(tenant);
    assert l.email[4] != email[4];
    assert Stranger(l, email, minutes, now);
    OneStranger(l, email, minutes, now);
  }

  // ----------------------------------------------------------------- cleanup

  datatype Event = Record(row: Attempt) | Cleanup(retention: Time, now: Time)

  /** The table after a run, newest event last. */
  function Run(events: seq<Event>): seq<Attempt> {
    if events == [] then [] else
      var rows := Run(events[..|events| - 1]);
      match events[|events| - 1]
      case Record(row) => rows + [row]
      case Cleanup(retention, now) => KeepSince(rows, now - retention)
  }

  /** The same run without its cleanups. */
  function RunUncleaned(events: seq<Event>): seq<Attempt> {
    if events == [] then [] else
      var rows := RunUncleaned(events[..|events| - 1]);
      match events[|events| - 1]
      case Record(row) => rows + [row]
      case Cleanup(_, _) => rows
  }

  lemma {:induction false} CountAfterKeep(rows: seq<Attempt>, kept: Time, identifier: string, cutoff: Time)
    requires kept <= cutoff
    ensures Count(KeepSince(rows, kept), Equals(identifier), cutoff) == Count(rows, Equals(identifier), cutoff)
  {
    if rows != [] {
      var n := |rows| - 1;
      CountAfterKeep(rows[..n], kept, identifier, cutoff);
      var front := KeepSince(rows[..n], kept);
      assert front + [] == front && (front + [rows[n]])[..|front|] == front;
    }
  }

  /** Every cleanup of the run spared the rows from `cutoff` on. */
  ghost predicate Retains(events: seq<Event>, cutoff: Time) {
    forall i :: 0 <= i < |events| && events[i].Cleanup? ==> events[i].now - events[i].retention <= cutoff
  }

  lemma {:induction false} CountsAgree(events: seq<Event>, identifier: string, cutoff: Time)
    requires Retains(events, cutoff)
    ensures Count(Run(events), Equals(identifier), cutoff) == Count(RunUncleaned(events), Equals(identifier), cutoff)
  {
    if events != [] {
      var n := |events| - 1;
      CountsAgree(events[..n], identifier, cutoff);
      match events[n] {
        case Record(row) =>
          CountAppend(Run(events[..n]), row, Equals(identifier), cutoff);
          CountAppend(RunUncleaned(events[..n]), row, Equals(identifier), cutoff);
        case Cleanup(retention, then') =>
          CountAfterKeep(Run(events[..n]), then' - retention, identifier, cutoff);
      }
    }
  }

  /** Cleanups that retain at least the lockout window cannot be seen: deleting
      them from a run changes no count of recent failures from then on, ... */
  lemma RecentFailuresAgree(events: seq<Event>, email: string, tenant: int, minutes: int, now: Time)
    requires Retains(events, now - minutes as real * MINUTE)
    ensures CountRecentFailures(Run(events), email, tenant, minutes, now)
         == CountRecentFailures(RunUncleaned(events), email, tenant, minutes, now)
  {
    CountsAgree(events, Identifier(Normalize(email), tenant), now - minutes as real * MINUTE);
  }

  /** ... hence no answer of `is_locked_out`. */
  lemma CleanupUnobservable(events: seq<Event>, email: string, tenant: int, maxAttempts: int, minutes: int, now: Time)
    requires Retains(events, now - minutes as real * MINUTE)
    ensures IsLockedOut(Run(events), email, tenant, maxAttempts, minutes, now)
        <==> IsLockedOut(RunUncleaned(events), email, tenant, maxAttempts, minutes, now)
  {
    RecentFailuresAgree(events, email, tenant, minutes, now);
  }

  /** And only those: a cleanup is invisible to `is_locked_out` on every table
      exactly if it retains the window. */
  lemma CleanupUnobservableIff(email: string, tenant: int, minutes: int, retention: Time, now: Time)
    ensures (forall rows: seq<Attempt> ::
        CountRecentFailures(KeepSince(rows, now - retention), email, tenant, minutes, now)
          == CountRecentFailures(rows, email, tenant, minutes, now))
      <==> retention >= minutes as real * MINUTE
  {
    var window := minutes as real * MINUTE;
    var id := Identifier(Normalize(email), tenant);
    if retention >= window {
      forall rows: seq<Attempt>
        ensures CountRecentFailures(KeepSince(rows, now - retention), email, tenant, minutes, now)
             == CountRecentFailures(rows, email, tenant, minutes, now)
      {
        CountAfterKeep(rows, now - retention, id, now - window);
      }
    } else {
      var rows := [Attempt(id, "", false, now - window)];
      assert rows[..0] == [];
      assert KeepSince(rows, now - retention) == [];
      assert Equals(id).Selects(rows[0], now - window);
      assert Count(rows, Equals(id), now - window) == 1;
      assert CountRecentFailures(rows, email, tenant, minutes, now) == 1;
      assert CountRecentFailures(KeepSince(rows, now - retention), email, tenant, minutes, now) == 0;
    }
  }
}
