/** Site domains: their one spelling, and which hosts belong to one. */
module Domains {
  import opened Prelude
  import opened Text

  function LowerCase(s: string): string { if s == [] then [] else [Lower(s[0])] + LowerCase(s[1..]) }

  /** `s.split(c, 1)[0]`. */
  function Before(s: string, c: char): string { SplitOn(s, c)[0] }

  /** `s.split("://", 1)[1]` where there is one. */
  function AfterScheme(s: string): string {
    if s == [] then [] else if "://" <= s then s[3..] else AfterScheme(s[1..])
  }

  /** `s.strip(".")`. */
  function StripDots(s: string): string
    decreases |s|
  {
    if s != [] && s[0] == '.' then StripDots(s[1..])
    else if s != [] && s[|s| - 1] == '.' then StripDots(s[..|s| - 1])
    else s
  }

  const WWW := "www."

  function WithoutWww(s: string): string { if WWW <= s then s[4..] else s }

  /** What is left of an address without its path, query, fragment, user and port. */
  function HostOfAddress(address: string): string {
    var authority := Before(Before(Before(address, '/'), '?'), '#');
    var parts := SplitOn(authority, '@');
    Before(parts[|parts| - 1], ':')
  }

  /** The host part of what was typed, whatever was typed around it. */
  function HostPart(s: string): string { HostOfAddress(if Contains(s, "://") then AfterScheme(s) else s) }

  /** What `normalize_domain` makes of what was typed. */
  function Normalize(raw: string): string { WithoutWww(StripDots(HostPart(LowerCase(Strip(raw))))) }

  // ---- Valid names ----

  predicate IsLetter(c: char) { 'a' <= c <= 'z' }

  predicate IsAlnum(c: char) { IsLetter(c) || IsDigit(c) }

  /** `[a-z0-9](?:[a-z0-9-]{0,61}[a-z0-9])?`. */
  predicate IsLabel(s: string) {
    1 <= |s| <= 63 && IsAlnum(s[0]) && IsAlnum(s[|s| - 1]) && forall c | c in s :: IsAlnum(c) || c == '-'
  }

  function Labels(s: string): (labels: seq<string>)
    ensures |labels| >= 1
  {
    SplitOn(s, '.')
  }

  predicate IsName(s: string) {
    var labels := Labels(s);
    && 1 <= |s| <= 253 && |labels| >= 2 && (forall l | l in labels :: IsLabel(l))
    && var top := labels[|labels| - 1]; top != [] && IsLetter(top[0])
  }

  /** `is_valid_domain`: `$` also matches before one newline at the end. */
  predicate IsValidDomain(s: string) {
    IsName(s) || (s != [] && s[|s| - 1] == '\n' && IsName(s[..|s| - 1]))
  }

  predicate NameChar(c: char) { IsAlnum(c) || c == '-' || c == '.' }

  predicate IsPlain(s: string) {
    s != [] && IsAlnum(s[0]) && IsAlnum(s[|s| - 1]) && forall c | c in s :: NameChar(c)
  }

  lemma {:induction false} JoinedLabels(labels: seq<string>)
    requires labels != [] && forall l | l in labels :: IsLabel(l)
    ensures IsPlain(Join(labels, '.'))
  {
    assert labels[0] in labels && IsLabel(labels[0]);
    if |labels| > 1 {
      JoinedLabels(labels[1..]);
    }
  }

  /** A name is written in name characters, and neither starts nor ends with a dot. */
  lemma NameIsPlain(s: string)
    requires IsName(s)
    ensures IsPlain(s)
  {
    JoinSplit(s, '.');
    JoinedLabels(Labels(s));
  }

  // ---- One spelling ----

  lemma {:induction false} LowerIsLower(s: string)
    requires forall c | c in s :: Lower(c) == c
    ensures LowerCase(s) == s
  {
    if s != [] {
      assert s[0] in s && forall c | c in s[1..] :: c in s;
      LowerIsLower(s[1..]);
    }
  }

  lemma StripIsDone(s: string)
    requires s != [] && !IsSpace(s[0]) && !IsSpace(s[|s| - 1])
    ensures Strip(s) == s
  {
  }

  lemma NoScheme(s: string)
    requires ':' !in s
    ensures !Contains(s, "://")
  {
    forall i | 0 <= i <= |s|
      ensures !StartsWith(s[i..], "://")
    {
      assert i < |s| ==> s[i..][0] == s[i] && s[i] in s;
    }
  }

  /** The part before a path, when there is nothing else to take off. */
  lemma HostOf(s: string)
    requires forall c | c in s :: c !in "/?#@:"
    ensures HostPart(s) == s
    ensures HostPart(s + "/x") == s
  {
    var slash := s + ['/'] + "x";
    assert s + "/x" == slash && ':' !in slash;
    NoScheme(s);
    NoScheme(slash);
    SplitWhole(s, '/');
    SplitFirst(s, "x", '/');
    SplitWhole(s, '?');
    SplitWhole(s, '#');
    SplitWhole(s, '@');
    SplitWhole(s, ':');
  }

  /** The steps of normalising, each by its outcome. */
  lemma Stepwise(raw: string, typed: string, host: string, value: string)
    requires LowerCase(Strip(raw)) == typed && HostPart(typed) == host && WithoutWww(StripDots(host)) == value
    ensures Normalize(raw) == value
  {
  }

  /** Once the host part is a plain name, only its `www.` is left to take off. */
  lemma NormalizeTo(raw: string, typed: string, name: string)
    requires LowerCase(Strip(raw)) == typed && HostPart(typed) == name && IsPlain(name)
    ensures Normalize(raw) == WithoutWww(name)
  {
    assert StripDots(name) == name;
  }

  /** On a plain text, and so on a name, normalising does one thing only. */
  lemma NormalizePlain(s: string)
    requires IsPlain(s)
    ensures Normalize(s) == WithoutWww(s)
  {
    StripIsDone(s);
    LowerIsLower(s);
    HostOf(s);
    NormalizeTo(s, s, s);
  }

  lemma NormalizeName(s: string)
    requires IsName(s)
    ensures Normalize(s) == WithoutWww(s)
  {
    NameIsPlain(s);
    NormalizePlain(s);
  }

  lemma NormalizeLine(s: string)
    requires IsName(s)
    ensures Normalize(s + "\n") == WithoutWww(s)
  {
    NameIsPlain(s);
    StripIsDone(s);
    assert (s + "\n")[..|s|] == s;
    assert StripRight(s + "\n") == StripRight(s);
    assert Strip(s + "\n") == s;
    NormalizeName(s);
  }

  lemma NameFixpointIff(s: string)
    requires IsName(s)
    ensures '\n' !in s && (Normalize(s) == s <==> !(WWW <= s))
  {
    NormalizeName(s);
    NameIsPlain(s);
  }

  lemma LineIsNoFixpoint(s: string)
    requires s != [] && s[|s| - 1] == '\n' && IsName(s[..|s| - 1])
    ensures '\n' in s && Normalize(s) != s
  {
    var name := s[..|s| - 1];
    assert s == name + "\n";
    NormalizeLine(name);
    assert s[|s| - 1] in s && |WithoutWww(name)| < |s|;
  }

  /** A valid domain is its own one spelling exactly when it does not start with `www.` and holds no
      newline. */
  lemma FixpointIff(s: string)
    requires IsValidDomain(s)
    ensures Normalize(s) == s <==> !(WWW <= s) && '\n' !in s
  {
    if IsName(s) {
      NameFixpointIff(s);
    } else {
      LineIsNoFixpoint(s);
    }
  }

  /** So normalising what was stored changes it exactly when one of the two was left in. */
  lemma NormalizeTwiceIff(raw: string)
    requires IsValidDomain(Normalize(raw))
    ensures Normalize(Normalize(raw)) == Normalize(raw) <==> !(WWW <= Normalize(raw)) && '\n' !in Normalize(raw)
  {
    FixpointIff(Normalize(raw));
  }

  // ---- Every spelling of a site ----

  /** What may be typed around a name: before it a scheme and a user, after it a port and the rest. */
  datatype Around = Around(scheme: Option<string>, user: Option<string>, port: Option<string>, rest: string)

  predicate NoCut(s: string) { '/' !in s && '?' !in s && '#' !in s }

  predicate IsHost(s: string) { NoCut(s) && '@' !in s && ':' !in s }

  /** Each part is free of what would end it, the rest begins with what ends the port, and without a scheme
      nothing further on looks like one. */
  predicate Proper(a: Around) {
    && (a.scheme.Some? ==> ':' !in a.scheme.value)
    && (a.user.Some? ==> NoCut(a.user.value))
    && (a.port.Some? ==> NoCut(a.port.value) && '@' !in a.port.value)
    && (a.rest == "" || a.rest[0] in "/?#")
  }

  function UserPart(a: Around): string { if a.user.Some? then a.user.value + "@" else "" }

  function PortPart(a: Around): string { if a.port.Some? then ":" + a.port.value else "" }

  function Address(a: Around, name: string): string { UserPart(a) + (name + PortPart(a)) + a.rest }

  function Typed(a: Around, name: string): string {
    if a.scheme.Some? then a.scheme.value + "://" + Address(a, name) else Address(a, name)
  }

  /** The text is that name with that around it, in whatever case and spacing. */
  predicate Spells(raw: string, a: Around, name: string) {
    && IsName(name) && Proper(a) && LowerCase(Strip(raw)) == Typed(a, name)
    && (a.scheme.None? ==> !Contains(Typed(a, name), "://"))
  }

  /** Cutting at a character the front does not hold cuts only the back. */
  lemma BeforeAppend(front: string, back: string, c: char)
    requires c !in front
    ensures Before(front + back, c) == front + Before(back, c)
    ensures back != "" && back[0] == c ==> Before(back, c) == ""
    ensures back != "" && back[0] != c ==> Before(back, c) != "" && Before(back, c)[0] == back[0]
    ensures back == "" ==> Before(back, c) == ""
    decreases |front|
  {
    if front == "" {
      assert front + back == back;
    } else {
      assert (front + back)[1..] == front[1..] + back && front[0] in front;
      BeforeAppend(front[1..], back, c);
      assert front == [front[0]] + front[1..];
    }
  }

  lemma CutRest(front: string, rest: string)
    requires NoCut(front) && (rest == "" || rest[0] in "/?#")
    ensures Before(Before(Before(front + rest, '/'), '?'), '#') == front
  {
    var path := Before(rest, '/');
    var query := Before(path, '?');
    BeforeAppend(front, rest, '/');
    BeforeAppend(front, path, '?');
    BeforeAppend(front, query, '#');
    assert front + "" == front;
  }

  lemma LastPart(front: string, last: string, c: char)
    requires c !in last
    ensures var parts := SplitOn(front + [c] + last, c); parts[|parts| - 1] == last
  {
    SplitAppend(front, last, c);
    SplitWhole(last, c);
  }

  lemma UserTakenOff(a: Around, host: string)
    requires '@' !in host
    ensures var parts := SplitOn(UserPart(a) + host, '@'); parts[|parts| - 1] == host
  {
    if a.user.Some? {
      LastPart(a.user.value, host, '@');
      assert UserPart(a) + host == a.user.value + ['@'] + host;
    } else {
      SplitWhole(host, '@');
      assert UserPart(a) + host == host;
    }
  }

  lemma PortTakenOff(a: Around, name: string)
    requires ':' !in name
    ensures Before(name + PortPart(a), ':') == name
  {
    if a.port.Some? {
      SplitFirst(name, a.port.value, ':');
      assert name + PortPart(a) == name + [':'] + a.port.value;
    } else {
      SplitWhole(name, ':');
      assert name + PortPart(a) == name;
    }
  }

  lemma HostOfTyped(a: Around, name: string)
    requires Proper(a) && IsHost(name)
    ensures HostOfAddress(Address(a, name)) == name
  {
    var host := name + PortPart(a);
    assert NoCut(UserPart(a) + host) && '@' !in host;
    CutRest(UserPart(a) + host, a.rest);
    UserTakenOff(a, host);
    PortTakenOff(a, name);
  }

  lemma {:induction false} SchemeFirst(scheme: string, address: string)
    requires ':' !in scheme
    ensures Contains(scheme + "://" + address, "://") && AfterScheme(scheme + "://" + address) == address
  {
    var s := scheme + "://" + address;
    assert StartsWith(s[|scheme|..], "://") by {
      assert s[|scheme|..] == "://" + address;
    }
    if scheme == "" {
      assert s[3..] == address;
    } else {
      SchemeFirst(scheme[1..], address);
      assert s[1..] == scheme[1..] + "://" + address && s[0] == scheme[0] && scheme[0] in scheme;
    }
  }

  /** A site is normalised to its name whatever is typed around it, in whatever case and spacing: a scheme,
      a user, a port, a path, a query or a fragment, each or none; but without a scheme, only if nothing
      that follows looks like one. */
  lemma SpellingsAgree(raw: string, a: Around, name: string)
    requires Spells(raw, a, name)
    ensures Normalize(raw) == WithoutWww(name)
  {
    NameIsPlain(name);
    HostOfTyped(a, name);
    if a.scheme.Some? {
      SchemeFirst(a.scheme.value, Address(a, name));
    }
    NormalizeTo(raw, Typed(a, name), name);
  }

  /** `normalize_domain`, one reassignment at a time: a caller gets the name of the site, without its `www.`,
      whatever is typed around it. */
  method NormalizeDomain(raw: string) returns (value: string)
    ensures value == Normalize(raw)
    ensures forall a, name | Spells(raw, a, name) :: value == WithoutWww(name)
  {
    value := LowerCase(Strip(raw));
    ghost var typed := value;
    if Contains(value, "://") {
      value := AfterScheme(value);
    }
    value := Before(Before(Before(value, '/'), '?'), '#');
    var parts := SplitOn(value, '@');
    value := Before(parts[|parts| - 1], ':');
    ghost var host := value;
    value := StripDots(value);
    if WWW <= value {
      value := value[4..];
    }
    Stepwise(raw, typed, host, value);
    SpellingsAllAgree(raw);
  }

  lemma SpellingsAllAgree(raw: string)
    ensures forall a, name | Spells(raw, a, name) :: Normalize(raw) == WithoutWww(name)
  {
    forall a, name | Spells(raw, a, name)
      ensures Normalize(raw) == WithoutWww(name)
    {
      SpellingsAgree(raw, a, name);
    }
  }

  /** One letter, perhaps in the other case. */
  predicate Recased(x: char, y: char) {
    x == y || ('A' <= x <= 'Z' && y as int == x as int + 32) || ('A' <= y <= 'Z' && x as int == y as int + 32)
  }

  predicate SameButForCase(x: string, y: string) {
    |x| == |y| && forall i | 0 <= i < |x| :: Recased(x[i], y[i])
  }

  lemma {:induction false} LowerCaseAt(s: string)
    ensures |LowerCase(s)| == |s| && forall i | 0 <= i < |s| :: LowerCase(s)[i] == Lower(s[i])
  {
    if s != [] {
      LowerCaseAt(s[1..]);
    }
  }

  lemma SameLowerCase(x: string, y: string)
    requires SameButForCase(x, y)
    ensures LowerCase(x) == LowerCase(y)
  {
    LowerCaseAt(x);
    LowerCaseAt(y);
  }

  /** Spaces around what is typed and the case it is typed in make no difference. */
  lemma CaseAndSpacingIgnored(left: string, x: string, right: string, y: string)
    requires AllSpace(left) && AllSpace(right) && IsStripped(x) && SameButForCase(x, y)
    ensures Normalize(left + x + right) == Normalize(y)
  {
    StripPads(left, x, right);
    StripPads("", y, "");
    assert "" + y + "" == y;
    SameLowerCase(x, y);
  }

  predicate AllDots(s: string) { forall c | c in s :: c == '.' }

  lemma {:induction false} DotsStripped(front: string, name: string, back: string)
    requires AllDots(front) && AllDots(back) && name != "" && name[0] != '.' && name[|name| - 1] != '.'
    ensures StripDots(front + name + back) == name
    decreases |front| + |back|
  {
    var s := front + name + back;
    if front != "" {
      assert front[0] in front && s[1..] == front[1..] + name + back;
      assert forall c | c in front[1..] :: c in front;
      DotsStripped(front[1..], name, back);
    } else if back != "" {
      var n := |back| - 1;
      assert back[n] in back && s[..|s| - 1] == front + name + back[..n] && s[0] == name[0];
      assert forall c | c in back[..n] :: c in back;
      DotsStripped(front, name, back[..n]);
    } else {
      assert s == name;
    }
  }

  /** Nor do stray dots on either side of the name. */
  lemma StrayDotsIgnored(raw: string, a: Around, front: string, name: string, back: string)
    requires AllDots(front) && AllDots(back) && IsName(name) && Proper(a)
    requires LowerCase(Strip(raw)) == Typed(a, front + name + back)
    requires a.scheme.None? ==> !Contains(Typed(a, front + name + back), "://")
    ensures Normalize(raw) == WithoutWww(name)
  {
    var host := front + name + back;
    NameIsPlain(name);
    assert IsHost(host);
    HostOfTyped(a, host);
    if a.scheme.Some? {
      SchemeFirst(a.scheme.value, Address(a, host));
    }
    DotsStripped(front, name, back);
    Stepwise(raw, Typed(a, host), host, WithoutWww(name));
  }

  lemma {:induction false} FindRest(s: string) returns (front: string, rest: string)
    ensures s == front + rest && NoCut(front) && (rest == "" || rest[0] in "/?#")
  {
    if s == "" || s[0] in "/?#" {
      front, rest := "", s;
    } else {
      front, rest := FindRest(s[1..]);
      front := [s[0]] + front;
    }
  }

  lemma {:induction false} FindUser(s: string) returns (user: Option<string>, last: string)
    ensures '@' !in last && s == (if user.Some? then user.value + "@" else "") + last
  {
    if s == "" {
      user, last := None, "";
    } else {
      user, last := FindUser(s[1..]);
      if user.Some? {
        user := Some([s[0]] + user.value);
      } else if s[0] == '@' {
        user := Some("");
      } else {
        last := s;
      }
    }
  }

  lemma {:induction false} FindPort(s: string) returns (host: string, port: Option<string>)
    ensures ':' !in host && s == host + if port.Some? then ":" + port.value else ""
  {
    if s == "" {
      host, port := "", None;
    } else if s[0] == ':' {
      host, port := "", Some(s[1..]);
    } else {
      host, port := FindPort(s[1..]);
      host := [s[0]] + host;
    }
  }

  /** Any text at all is some host with something around it. */
  lemma AddressOf(s: string) returns (b: Around, host: string)
    ensures Proper(b) && IsHost(host) && s == Address(b, host)
  {
    var authority, rest := FindRest(s);
    var user, last := FindUser(authority);
    var port;
    host, port := FindPort(last);
    b := Around(None, user, port, rest);
    assert forall c | c in last :: c in authority;
    assert forall c | c in host :: c in last;
    assert port.Some? ==> forall c | c in port.value :: c in last;
    assert user.Some? ==> forall c | c in user.value :: c in authority;
  }

  /** What follows the first `://` is a host of the same site, with anything around it. */
  ghost predicate LinksToItself(typed: string, name: string) {
    exists b, host ::
      && Proper(b) && IsHost(host) && AfterScheme(typed) == Address(b, host)
      && WithoutWww(StripDots(host)) == WithoutWww(name)
  }

  lemma LinkedHostWins(raw: string, typed: string, b: Around, host: string)
    requires LowerCase(Strip(raw)) == typed && Contains(typed, "://")
    requires Proper(b) && IsHost(host) && AfterScheme(typed) == Address(b, host)
    ensures Normalize(raw) == WithoutWww(StripDots(host))
  {
    HostOfTyped(b, host);
    Stepwise(raw, typed, host, WithoutWww(StripDots(host)));
  }

  /** A link typed without a scheme is normalised to its own site if and only if nothing that follows looks
      like a scheme, or what follows that is a host of the same site. */
  lemma SchemelessIff(raw: string, a: Around, name: string)
    requires IsName(name) && Proper(a) && a.scheme.None? && LowerCase(Strip(raw)) == Typed(a, name)
    ensures Normalize(raw) == WithoutWww(name)
            <==> !Contains(Typed(a, name), "://") || LinksToItself(Typed(a, name), name)
  {
    var typed := Typed(a, name);
    if !Contains(typed, "://") {
      SpellingsAgree(raw, a, name);
    } else {
      var b, host := AddressOf(AfterScheme(typed));
      LinkedHostWins(raw, typed, b, host);
      if LinksToItself(typed, name) {
        var c, h :|
          && Proper(c) && IsHost(h) && AfterScheme(typed) == Address(c, h)
          && WithoutWww(StripDots(h)) == WithoutWww(name);
        LinkedHostWins(raw, typed, c, h);
      }
    }
  }

  /** In particular where what follows the first `://` is another name, itself with anything typed around
      it: then it is normalised to that name, and to its own exactly when the two are one site. */
  lemma LinkedSiteWins(raw: string, a: Around, name: string, b: Around, linked: string)
    requires IsName(name) && Proper(a) && a.scheme.None? && LowerCase(Strip(raw)) == Typed(a, name)
    requires IsName(linked) && Proper(b)
    requires Contains(Typed(a, name), "://") && AfterScheme(Typed(a, name)) == Address(b, linked)
    ensures Normalize(raw) == WithoutWww(linked)
  {
    NameIsPlain(linked);
    LinkedHostWins(raw, Typed(a, name), b, linked);
    assert StripDots(linked) == linked;
  }

  /** Such as a query that links anywhere: whatever follows the linked name, `name/?u=https://linked…` is
      stored under the linked site. */
  lemma QueryLinkWins(raw: string, name: string, link: string, b: Around, linked: string)
    requires IsName(name) && IsName(linked) && Proper(b) && link != "" && link[0] in "/?#" && ':' !in link
    requires LowerCase(Strip(raw)) == name + (link + "://" + Address(b, linked))
    ensures Normalize(raw) == WithoutWww(linked)
  {
    var a := Around(None, None, None, link + "://" + Address(b, linked));
    NameIsPlain(name);
    assert Address(a, name) == name + a.rest by {
      assert name + PortPart(a) == name;
      assert UserPart(a) + name == name;
    }
    assert ':' !in name + link && name + a.rest == (name + link) + "://" + Address(b, linked);
    SchemeFirst(name + link, Address(b, linked));
    LinkedSiteWins(raw, a, name, b, linked);
  }

  lemma WithoutWwwIsPlain(name: string)
    requires IsName(name)
    ensures IsPlain(WithoutWww(name))
  {
    NameIsPlain(name);
    if WWW <= name {
      var rest := name[4..];
      assert name == "www" + ['.'] + rest;
      SplitFirst("www", rest, '.');
      assert forall l | l in Labels(rest) :: l in Labels(name);
      JoinSplit(rest, '.');
      JoinedLabels(Labels(rest));
    }
  }

  /** Over what was typed: normalising a second time changes the result exactly when the site's name starts
      with `www.` twice. */
  lemma TypedTwiceIff(raw: string, a: Around, name: string)
    requires Spells(raw, a, name)
    ensures Normalize(Normalize(raw)) == Normalize(raw) <==> !(WWW + WWW <= name)
  {
    SpellingsAgree(raw, a, name);
    var stored := WithoutWww(name);
    WithoutWwwIsPlain(name);
    NormalizePlain(stored);
    assert WithoutWww(stored) == stored <==> !(WWW <= stored);
    if WWW <= name {
      assert name == WWW + stored;
      if WWW <= stored {
        assert stored == WWW + stored[4..] && name == (WWW + WWW) + stored[4..];
      }
      if WWW + WWW <= name {
        assert stored[..4] == name[4..8] == WWW;
      }
    }
  }

  // ---- Which hosts belong ----

  /** `domain_matches`. */
  predicate DomainMatches(host: string, domain: string) {
    var h, d := Normalize(host), Normalize(domain);
    h != "" && d != "" && (h == d || EndsWith(h, "." + d))
  }

  predicate EndsWith<T(==)>(s: seq<T>, end: seq<T>) { |end| <= |s| && s[|s| - |end|..] == end }

  lemma DotIsLabelSuffix(h: string, d: string)
    requires EndsWith(h, "." + d)
    ensures EndsWith(Labels(h), Labels(d))
  {
    var rest := h[..|h| - |d| - 1];
    assert h == rest + ['.'] + d;
    SplitAppend(rest, d, '.');
  }

  lemma DotSuffix(h: string, front: string, d: string)
    requires h == front + ['.'] + d
    ensures EndsWith(h, "." + d)
  {
    assert h == front + ("." + d);
  }

  lemma LabelIsDotSuffix(h: string, d: string)
    requires EndsWith(Labels(h), Labels(d)) && |Labels(h)| > |Labels(d)|
    ensures EndsWith(h, "." + d)
  {
    var rest := Labels(h)[..|Labels(h)| - |Labels(d)|];
    JoinSplit(h, '.');
    JoinSplit(d, '.');
    assert Labels(h) == rest + Labels(d);
    JoinAppend(rest, Labels(d), '.');
    DotSuffix(h, Join(rest, '.'), d);
  }

  /** On any text: ending in the same letters at a dot is ending in the same labels. */
  lemma LabelSuffix(h: string, d: string)
    ensures h == d || EndsWith(h, "." + d) <==> EndsWith(Labels(h), Labels(d))
  {
    if EndsWith(h, "." + d) {
      DotIsLabelSuffix(h, d);
    }
    if EndsWith(Labels(h), Labels(d)) {
      if |Labels(h)| > |Labels(d)| {
        LabelIsDotSuffix(h, d);
      } else {
        JoinSplit(h, '.');
        JoinSplit(d, '.');
      }
    }
  }

  /** A host matches a domain exactly when its labels end with the domain's, both as normalised. */
  lemma MatchesIffLabels(host: string, domain: string)
    ensures DomainMatches(host, domain)
            <==> Normalize(host) != "" && Normalize(domain) != ""
                 && EndsWith(Labels(Normalize(host)), Labels(Normalize(domain)))
  {
    LabelSuffix(Normalize(host), Normalize(domain));
  }

  /** A name that is its own one spelling. */
  predicate Settled(s: string) { IsName(s) && !(WWW <= s) }

  /** On settled names: exactly the labels as they stand. */
  lemma SettledMatches(host: string, domain: string)
    requires Settled(host) && Settled(domain)
    ensures DomainMatches(host, domain) <==> EndsWith(Labels(host), Labels(domain))
  {
    NormalizeName(host);
    NormalizeName(domain);
    MatchesIffLabels(host, domain);
  }

  /** And on them it is a partial order. */
  lemma MatchingIsAnOrder(a: string, b: string, c: string)
    requires Settled(a) && Settled(b) && Settled(c)
    ensures DomainMatches(a, a)
    ensures DomainMatches(a, b) && DomainMatches(b, a) ==> a == b
    ensures DomainMatches(a, b) && DomainMatches(b, c) ==> DomainMatches(a, c)
  {
    SettledMatches(a, a);
    SettledMatches(a, b);
    SettledMatches(b, a);
    SettledMatches(b, c);
    SettledMatches(a, c);
    JoinSplit(a, '.');
    JoinSplit(b, '.');
  }

  // ---- What normalising leaves in ----

  lemma WwwName(s: string)
    requires IsName(s) && |s| <= 249
    ensures IsName(WWW + s) && Labels(WWW + s) == ["www"] + Labels(s)
  {
    assert WWW + s == "www" + ['.'] + s;
    SplitFirst("www", s, '.');
    assert IsLabel("www");
  }

  lemma NormalizeWww(s: string)
    requires IsPlain(s)
    ensures Normalize(WWW + s) == s
  {
    NormalizePlain(WWW + s);
    assert (WWW + s)[4..] == s;
  }

  /** A second `www.` is left in, and the row stored then takes in not its own hosts but every host of the
      parent. */
  lemma StoredWww(s: string, host: string)
    requires Settled(s) && |s| <= 249
    ensures Normalize(WWW + (WWW + s)) == WWW + s && IsValidDomain(WWW + s)
    ensures Normalize(WWW + s) == s
    ensures DomainMatches(host, WWW + s) <==> DomainMatches(host, s)
  {
    WwwName(s);
    NormalizeName(s);
    NameIsPlain(s);
    NameIsPlain(WWW + s);
    NormalizeWww(s);
    NormalizeWww(WWW + s);
  }

  lemma LineIsLeft(s: string)
    requires Settled(s)
    ensures WithoutWww(StripDots(s + "\n")) == s + "\n"
  {
    NameIsPlain(s);
    var line := s + "\n";
    assert line[0] == s[0] && line[|s|] == '\n';
    if |s| >= 4 {
      assert line[..4] == s[..4];
    } else if |line| == 4 {
      assert line[3] == '\n';
    }
  }

  lemma LineTyped(line: string)
    requires line != "" && !IsSpace(line[0]) && forall c | c in line :: Lower(c) == c
    ensures LowerCase(Strip(line + "/x")) == line + "/x"
  {
    StripIsDone(line + "/x");
    LowerIsLower(line + "/x");
  }

  lemma LineIsValid(s: string)
    requires IsName(s)
    ensures IsValidDomain(s + "\n")
  {
    var line := s + "\n";
    assert line[..|line| - 1] == s;
  }

  lemma LineWithPath(s: string, line: string)
    requires Settled(s) && line == s + "\n"
    ensures Normalize(line + "/x") == line
  {
    NameIsPlain(s);
    LineTyped(line);
    HostOf(line);
    LineIsLeft(s);
    Stepwise(line + "/x", line + "/x", line, line);
  }

  /** Nor is a newline stripped that a path follows. */
  lemma StoredNewline(s: string)
    requires Settled(s)
    ensures Normalize(s + "\n" + "/x") == s + "\n" && IsValidDomain(s + "\n")
    ensures Normalize(s + "\n") == s
  {
    LineWithPath(s, s + "\n");
    LineIsValid(s);
    NormalizeLine(s);
  }

  const PARENT := "a.com"
  const OTHER := "b.a.com"

  lemma ParentIsSettled()
    ensures Settled(PARENT) && Labels(PARENT) == ["a", "com"]
  {
    SplitWhole("com", '.');
    SplitFirst("a", "com", '.');
    assert "a" + ['.'] + "com" == PARENT;
    assert IsLabel("a") && IsLabel("com");
  }

  lemma OtherIsSettled()
    ensures Settled(OTHER) && Labels(OTHER) == ["b"] + Labels(PARENT)
  {
    ParentIsSettled();
    SplitFirst("b", PARENT, '.');
    assert "b" + ['.'] + PARENT == OTHER;
    assert IsLabel("b");
  }

  /** On one name: a row typed as `www.www.a.com` takes in `b.a.com`. */
  lemma StoredOffSpelling()
    ensures var stored := Normalize(WWW + (WWW + PARENT));
            stored == WWW + PARENT && IsValidDomain(stored) && DomainMatches(OTHER, stored)
  {
    ParentIsSettled();
    OtherIsSettled();
    StoredWww(PARENT, OTHER);
    SettledMatches(OTHER, PARENT);
  }
}
