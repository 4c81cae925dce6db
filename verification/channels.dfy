/**
 * Authorisation of private broadcast channels. Three routes are
 * registered, in this order: `App.Models.User.{id}`, `system-notifications`
 * and `user.{userId}`. A channel name (without its `private-` prefix) is
 * checked against the routes in registration order and the first route
 * whose pattern matches decides.
 *
 * The framework turns a route into the PCRE pattern
 * `^<route with each {param} replaced by ([^.]+)>$` without escaping the
 * route's own dots and without modifiers, so a literal `.` of a route
 * matches any character but a newline, and `$` matches at the end of the
 * name or just before a final newline. Every route here has the shape
 * "fixed prefix, then at most one trailing parameter", which is what
 * `Route` captures. The id rule compares PHP `(int)` casts of both sides.
 */
module Channels {
  import opened Wrappers
  import Text

  /** A route pattern: a literal prefix and, optionally, one trailing `{param}`. */
  datatype Route = Route(prefix: string, hasParam: bool)

  /** The rule a route's callback applies to the authenticated subscriber. */
  datatype Rule = SameUserId | Everyone

  const ModelUserRoute := Route("App.Models.User.", true)
  const SystemRoute := Route("system-notifications", false)
  const UserRoute := Route("user.", true)

  const SystemChannel := "system-notifications"

  /** The channel name's character `c` satisfies the pattern character `p` (an unescaped `.` matches anything but a newline). */
  predicate CharMatches(p: char, c: char) {
    if p == '.' then c != '\n' else p == c
  }

  predicate PrefixMatches(prefix: string, name: string) {
    |prefix| <= |name| && forall i :: 0 <= i < |prefix| ==> CharMatches(prefix[i], name[i])
  }

  /** The `([^.]+)` capture group: a non-empty run without dots. */
  predicate IsSegment(s: string) {
    |s| > 0 && forall i :: 0 <= i < |s| ==> s[i] != '.'
  }

  /**
   * The captured parameter when `name` matches `r`; `Some("")` for a
   * parameterless route. The greedy group takes the whole rest of the name,
   * a final newline included; without a group only nothing or a single
   * newline may follow the prefix.
   */
  function Match(r: Route, name: string): (m: Option<string>)
    ensures m.Some? ==> PrefixMatches(r.prefix, name)
    ensures m.Some? && r.hasParam ==> IsSegment(m.value) && name == name[..|r.prefix|] + m.value
    ensures m.Some? && !r.hasParam ==> m.value == "" && (|name| == |r.prefix| || name == name[..|r.prefix|] + "\n")
    ensures m.None? <==> (!PrefixMatches(r.prefix, name) ||
                          (r.hasParam && !IsSegment(name[|r.prefix|..])) ||
                          (!r.hasParam && name[|r.prefix|..] != "" && name[|r.prefix|..] != "\n"))
  {
    if !PrefixMatches(r.prefix, name) then None
    else if r.hasParam then (if IsSegment(name[|r.prefix|..]) then Some(name[|r.prefix|..]) else None)
    else if name[|r.prefix|..] == "" || name[|r.prefix|..] == "\n" then Some("")
    else None
  }

  /** The callbacks: the id rule compares `(int)` casts of both sides; the system rule always grants. */
  function Applies(rule: Rule, arg: string, subscriberId: int): bool {
    match rule
    case SameUserId => subscriberId == Text.PhpIntCast(arg)
    case Everyone => true
  }

  /** The route that decides for a channel name, with its rule and captured argument. */
  datatype Decision = ByRoute(route: Route, rule: Rule, arg: string) | NoRoute

  /** The routes are tried in registration order; the first whose pattern matches decides. */
  function Resolve(name: string): (d: Decision)
    ensures d.ByRoute? ==> Match(d.route, name) == Some(d.arg)
    ensures d.NoRoute? <==> Match(ModelUserRoute, name).None? && Match(SystemRoute, name).None? &&
                            Match(UserRoute, name).None?
  {
    var m1 := Match(ModelUserRoute, name);
    var m2 := Match(SystemRoute, name);
    var m3 := Match(UserRoute, name);
    if m1.Some? then ByRoute(ModelUserRoute, SameUserId, m1.value)
    else if m2.Some? then ByRoute(SystemRoute, Everyone, m2.value)
    else if m3.Some? then ByRoute(UserRoute, SameUserId, m3.value)
    else NoRoute
  }

  /** Whether an authenticated subscriber with id `subscriberId` may join private channel `name`; an unmatched name is denied. */
  function Authorize(name: string, subscriberId: int): (granted: bool)
    ensures granted ==> Resolve(name).ByRoute?
  {
    match Resolve(name)
    case NoRoute => false
    case ByRoute(_, rule, arg) => Applies(rule, arg, subscriberId)
  }

  /** The system route matches its own name and that name followed by one newline, nothing else. */
  lemma SystemRouteMatches(name: string)
    ensures Match(SystemRoute, name).Some? <==> name == SystemChannel || name == SystemChannel + "\n"
  {
    var k := |SystemChannel|;
    if Match(SystemRoute, name).Some? {
      assert forall i :: 0 <= i < k ==> name[i] == SystemChannel[i];
      assert name[..k] == SystemChannel;
      assert name == name[..k] + name[k..];
    }
    if name == SystemChannel + "\n" {
      assert name[..k] == SystemChannel;
      assert name[k..] == "\n";
    }
  }

  /** The system channel admits every subscriber. */
  lemma SystemChannelAdmitsEveryone(subscriberId: int)
    ensures Authorize(SystemChannel, subscriberId)
  {
    assert Match(ModelUserRoute, SystemChannel).None? by {
      assert !CharMatches(ModelUserRoute.prefix[0], SystemChannel[0]);
    }
    SystemRouteMatches(SystemChannel);
  }

  lemma NumeralIsSegment(n: int)
    ensures IsSegment(Text.IntToString(n))
  {
    var s := Text.IntToString(n);
    if n < 0 {
      assert s[1..] == Text.NatToString(-n);
      forall i | 0 <= i < |s| ensures s[i] != '.' {
        if i > 0 { assert s[i] == s[1..][i - 1]; }
      }
    }
  }

  /** `user.{n}` admits exactly the user whose id is `n`. */
  lemma UserChannelAdmitsOnlyItsUser(n: int, subscriberId: int)
    requires Text.IntMin <= n <= Text.IntMax
    ensures Authorize("user." + Text.IntToString(n), subscriberId) <==> subscriberId == n
  {
    var name := "user." + Text.IntToString(n);
    assert !CharMatches(ModelUserRoute.prefix[0], name[0]);
    assert Match(SystemRoute, name).None? by {
      assert !CharMatches(SystemRoute.prefix[0], name[0]);
    }
    assert Match(ModelUserRoute, name).None?;
    assert PrefixMatches(UserRoute.prefix, name);
    assert name[|UserRoute.prefix|..] == Text.IntToString(n);
    NumeralIsSegment(n);
    assert Match(UserRoute, name) == Some(Text.IntToString(n));
    Text.PhpCastOfNumeral(n);
  }

  /** `App.Models.User.{n}` admits exactly the user whose id is `n`. */
  lemma ModelChannelAdmitsOnlyItsUser(n: int, subscriberId: int)
    requires Text.IntMin <= n <= Text.IntMax
    ensures Authorize("App.Models.User." + Text.IntToString(n), subscriberId) <==> subscriberId == n
  {
    var name := "App.Models.User." + Text.IntToString(n);
    assert PrefixMatches(ModelUserRoute.prefix, name);
    assert name[|ModelUserRoute.prefix|..] == Text.IntToString(n);
    NumeralIsSegment(n);
    Text.PhpCastOfNumeral(n);
  }

  /** Apart from the system channel, with or without a final newline, no channel admits two different subscribers. */
  lemma AtMostOneSubscriber(name: string, u1: int, u2: int)
    requires Authorize(name, u1) && Authorize(name, u2) && u1 != u2
    ensures name == SystemChannel || name == SystemChannel + "\n"
  {
    SystemRouteMatches(name);
  }

  /**
   * `$` also matches before a final newline: the system channel's name with
   * a newline admits everyone, and a parameter keeps the newline, which the
   * cast then stops at.
   */
  lemma FinalNewlineStillMatches(subscriberId: int)
    ensures Authorize(SystemChannel + "\n", subscriberId)
    ensures Authorize("user.5\n", 5)
  {
    var name := SystemChannel + "\n";
    assert Match(ModelUserRoute, name).None? by {
      assert !CharMatches(ModelUserRoute.prefix[0], name[0]);
    }
    SystemRouteMatches(name);
    assert "5\n" == ['5'] + "\n";
    Text.PhpCastOfOneDigit('5', "\n");
    UserSegmentDecides("5\n", 5);
  }

  /** A name no earlier route matches but `user.{userId}` does is decided by the id rule on the captured segment. */
  lemma DecidedByUserRoute(name: string, subscriberId: int)
    requires Match(ModelUserRoute, name).None? && Match(SystemRoute, name).None? && Match(UserRoute, name).Some?
    ensures Authorize(name, subscriberId) <==> subscriberId == Text.PhpIntCast(Match(UserRoute, name).value)
  {
  }

  /** The route's dot is a wildcard: `userX5` admits user 5. */
  lemma DotIsWildcard()
    ensures Authorize("userX5", 5)
  {
    var name := "userX5";
    assert Match(ModelUserRoute, name).None? by { assert !CharMatches(ModelUserRoute.prefix[0], name[0]); }
    assert Match(SystemRoute, name).None? by { assert !CharMatches(SystemRoute.prefix[0], name[0]); }
    assert Match(UserRoute, name) == Some("5") by {
      assert PrefixMatches(UserRoute.prefix, name);
      assert name[5..] == "5";
    }
    assert Text.PhpIntCast("5") == 5 by { Text.PhpCastOfNumeral(5); }
    DecidedByUserRoute(name, 5);
  }

  /** Any dot-free parameter after `user.` reaches the id rule, which compares the subscriber with PHP's cast of it. */
  lemma UserSegmentDecides(segment: string, subscriberId: int)
    requires IsSegment(segment)
    ensures Authorize("user." + segment, subscriberId) <==> subscriberId == Text.PhpIntCast(segment)
  {
    var name := "user." + segment;
    assert Match(ModelUserRoute, name).None? by { assert !CharMatches(ModelUserRoute.prefix[0], name[0]); }
    assert Match(SystemRoute, name).None? by { assert !CharMatches(SystemRoute.prefix[0], name[0]); }
    assert PrefixMatches(UserRoute.prefix, name);
    assert name[|UserRoute.prefix|..] == segment;
    DecidedByUserRoute(name, subscriberId);
  }

  /** The cast reads the leading number and ignores the text after it: `user.5abc` admits user 5. */
  lemma CastReadsLeadingNumber()
    ensures Authorize("user.5abc", 5)
  {
    assert "5abc" == ['5'] + "abc";
    Text.PhpCastOfOneDigit('5', "abc");
    UserSegmentDecides("5abc", 5);
  }

  /** A parameter without leading digits casts to 0: `user.abc` admits the id 0. */
  lemma NonNumericParameterIsZero()
    ensures Authorize("user.abc", 0)
  {
    Text.PhpCastOfNoNumber("abc");
    UserSegmentDecides("abc", 0);
  }

  /**
   * The cast reads an exponent: a parameter of a digit, `e` and a digit
   * admits the user whose id is the first digit times ten to the second,
   * so `user.1e1` admits user 10 and refuses user 1.
   */
  lemma ExponentParameterIsScaled(d: char, k: char, subscriberId: int)
    requires Text.IsDigit(d) && Text.IsDigit(k)
    ensures Authorize("user." + [d, 'e', k], subscriberId) <==>
            subscriberId == Text.DigitValue(d) * Text.Pow10(Text.DigitValue(k))
  {
    Text.PhpCastReadsExponent(d, k);
    assert IsSegment([d, 'e', k]);
    UserSegmentDecides([d, 'e', k], subscriberId);
  }
}
