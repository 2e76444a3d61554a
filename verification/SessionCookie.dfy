/** The session cookie's printer and parser: sessionCookieValue and parseSessionCookie of
    internal/proxy/proxy.go. */
module SessionCookie {
  import opened Base
  import opened Decimal

  datatype Session = Session(backendID: string, createdAt: int, lastActivity: int)

  predicate Int64(x: int) { MIN_INT64 <= x <= MAX_INT64 }

  /** sessionCookieValue; `activity` is the activity marker, when one is written. */
  function CookieValue(backendID: string, createdAt: int, activity: Option<int>): string {
    match activity
    case Some(now) => backendID + "." + FormatInt(createdAt) + "." + FormatInt(now)
    case None => backendID + "." + FormatInt(createdAt)
  }

  /** parseSessionCookie */
  function ParseCookie(value: string): Option<Session> {
    var outer := Cut(value, '.');
    if !outer.found then None else
    var inner := Cut(outer.after, '.');
    var created := ParseInt(inner.before);
    if created.None? then None
    else if !inner.found then Some(Session(outer.before, created.value, created.value))
    else if '.' in inner.after then None
    else
      var lastActivity := ParseInt(inner.after);
      if lastActivity.None? then None
      else Some(Session(outer.before, created.value, lastActivity.value))
  }

  /** What was written into a cookie: the activity marker defaults to the creation time. */
  function Written(backendID: string, createdAt: int, activity: Option<int>): Session {
    Session(backendID, createdAt, if activity.Some? then activity.value else createdAt)
  }

  lemma ParsedIdHasNoDot(value: string)
    ensures ParseCookie(value).Some? ==> '.' !in ParseCookie(value).value.backendID
    ensures ParseCookie(value).Some? ==> Int64(ParseCookie(value).value.createdAt)
    ensures ParseCookie(value).Some? ==> Int64(ParseCookie(value).value.lastActivity)
  {
  }

  /** ParseCookie, once the two cuts are known. */
  lemma ParseParts(value: string, backendID: string, rest: string, created: string, last: string)
    requires value == backendID + "." + rest && '.' !in backendID && '.' !in created
    ensures rest == created ==>
              ParseCookie(value) == var c := ParseInt(created);
                                    if c.None? then None else Some(Session(backendID, c.value, c.value))
    ensures rest == created + "." + last && '.' !in last ==>
              ParseCookie(value) == var (c, l) := (ParseInt(created), ParseInt(last));
                                    if c.None? || l.None? then None else Some(Session(backendID, c.value, l.value))
  {
    CutIsUnique(value, '.', backendID, rest);
    if rest == created + "." + last && '.' !in last {
      CutIsUnique(rest, '.', created, last);
    }
  }

  lemma PrintedParts(backendID: string, createdAt: int, activity: Option<int>)
    requires '.' !in backendID
    requires Int64(createdAt) && (activity.Some? ==> Int64(activity.value))
    ensures ParseCookie(CookieValue(backendID, createdAt, activity)) == Some(Written(backendID, createdAt, activity))
  {
    var value := CookieValue(backendID, createdAt, activity);
    var created := FormatInt(createdAt);
    FormatHasNoDot(createdAt);
    ParseFormat(createdAt);
    if activity.None? {
      ParseParts(value, backendID, created, created, "");
    } else {
      var last := FormatInt(activity.value);
      FormatHasNoDot(activity.value);
      ParseFormat(activity.value);
      assert value == backendID + "." + (created + "." + last);
      ParseParts(value, backendID, created + "." + last, created, last);
    }
  }

  /** Parsing gives back what was printed, for every pair of 64-bit times, exactly when the
      backend ID is free of dots. */
  lemma ParseUndoesPrint(backendID: string, createdAt: int, activity: Option<int>)
    requires Int64(createdAt) && (activity.Some? ==> Int64(activity.value))
    ensures ParseCookie(CookieValue(backendID, createdAt, activity)) == Some(Written(backendID, createdAt, activity))
            <==> '.' !in backendID
  {
    ParsedIdHasNoDot(CookieValue(backendID, createdAt, activity));
    if '.' !in backendID {
      PrintedParts(backendID, createdAt, activity);
    }
  }

  /** Two dot-free IDs with 64-bit times print alike only when they were written alike. */
  lemma PrintIsInjective(id1: string, c1: int, a1: Option<int>, id2: string, c2: int, a2: Option<int>)
    requires Int64(c1) && (a1.Some? ==> Int64(a1.value)) && Int64(c2) && (a2.Some? ==> Int64(a2.value))
    requires '.' !in id1 && '.' !in id2
    requires CookieValue(id1, c1, a1) == CookieValue(id2, c2, a2)
    ensures id1 == id2 && c1 == c2 && a1 == a2
  {
    ParseUndoesPrint(id1, c1, a1);
    ParseUndoesPrint(id2, c2, a2);
    FormatHasNoDot(c1);
    FormatHasNoDot(c2);
    if a1.None? && a2.Some? {
      DotCount(id1, c1, a2.value);
    } else if a1.Some? && a2.None? {
      DotCount(id1, c1, a1.value);
    }
  }

  /** A cookie without an activity marker differs from one with it. */
  lemma DotCount(id: string, c: int, now: int)
    ensures CookieValue(id, c, None) != CookieValue(id, c, Some(now))
  {
    assert |CookieValue(id, c, None)| < |CookieValue(id, c, Some(now))|;
  }

  /** Whatever text was accepted, the canonical cookie for the accepted session is accepted
      as the same session. */
  lemma AcceptedSessionsReprint(value: string)
    requires ParseCookie(value).Some?
    ensures var s := ParseCookie(value).value;
            ParseCookie(CookieValue(s.backendID, s.createdAt, Some(s.lastActivity))) == Some(s)
  {
    ParsedIdHasNoDot(value);
    var s := ParseCookie(value).value;
    ParseUndoesPrint(s.backendID, s.createdAt, Some(s.lastActivity));
  }

  /** The format, by example. */
  lemma CookieFormat()
    ensures CookieValue("ab", 12, Some(345)) == "ab.12.345"
    ensures CookieValue("ab", -7, None) == "ab.-7"
  {
    FormatExamples();
  }

  /** Texts with fewer than one or more than two dots are rejected. */
  lemma WrongDotsAreRejected(a: string, b: string, c: string, d: string)
    ensures '.' !in a ==> ParseCookie(a) == None
    ensures '.' !in a && '.' !in b && '.' !in c ==> ParseCookie(a + "." + (b + "." + (c + "." + d))) == None
  {
    if '.' !in a && '.' !in b && '.' !in c {
      var rest := b + "." + (c + "." + d);
      CutIsUnique(a + "." + rest, '.', a, rest);
      CutIsUnique(rest, '.', b, c + "." + d);
      assert (c + "." + d)[|c|] == '.';
    }
  }
}
