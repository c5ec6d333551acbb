/** Cache keys and the glob patterns that are to select them. */
module CacheKeys {
  import Decimal

  const PREFIX: string := "auth:user:"

  function AuthUserKey(user: int, org: int): string {
    PREFIX + Decimal.Print(user) + ":" + Decimal.Print(org)
  }

  function AuthUserOrgPattern(org: int): string {
    PREFIX + "*:" + Decimal.Print(org)
  }

  function AuthUserPattern(user: int): string {
    PREFIX + Decimal.Print(user) + ":*"
  }

  // Redis also gives meaning to '[' and '\'; no pattern here contains them.
  predicate Plain(pattern: string) {
    forall i :: 0 <= i < |pattern| ==> pattern[i] != '[' && pattern[i] != '\\'
  }

  predicate Literal(s: string) {
    Plain(s) && forall i :: 0 <= i < |s| ==> s[i] != '*' && s[i] != '?'
  }

  /** Redis glob matching: '*' stands for any characters, '?' for one. */
  predicate Matches(pattern: string, s: string)
    requires Plain(pattern)
    decreases |pattern| + |s|
  {
    if pattern == "" then s == ""
    else if pattern[0] == '*' then Matches(pattern[1..], s) || (s != "" && Matches(pattern, s[1..]))
    else s != "" && (pattern[0] == '?' || pattern[0] == s[0]) && Matches(pattern[1..], s[1..])
  }

  lemma {:induction false} LiteralHead(head: string, rest: string, s: string)
    requires Literal(head) && Plain(rest)
    ensures Plain(head + rest)
    ensures Matches(head + rest, s) <==> head <= s && Matches(rest, s[|head|..])
    decreases |head|
  {
    if head == "" {
      assert head + rest == rest;
    } else {
      assert (head + rest)[1..] == head[1..] + rest;
      if s != "" {
        LiteralHead(head[1..], rest, s[1..]);
        if |head| <= |s| { assert s[1..][|head[1..]|..] == s[|head|..]; }
        PrefixByHead(head, s);
      }
    }
  }

  lemma PrefixByHead(a: string, b: string)
    requires a != "" && b != ""
    ensures a <= b <==> a[0] == b[0] && a[1..] <= b[1..]
  {
    if a[0] == b[0] && a[1..] <= b[1..] {
      assert b == [b[0]] + b[1..] && a == [a[0]] + a[1..];
      assert b[1..] == a[1..] + b[1..][|a[1..]|..];
      assert b == a + b[1..][|a[1..]|..];
    }
  }

  lemma LiteralMatchesItself(lit: string, s: string)
    requires Literal(lit)
    ensures Matches(lit, s) <==> s == lit
  {
    LiteralHead(lit, "", s);
    assert lit + "" == lit;
    if lit <= s && s[|lit|..] == "" { assert s == lit; }
  }

  lemma {:induction false} StarMatchesAll(s: string)
    ensures Matches("*", s)
    decreases |s|
  {
    if s != "" { StarMatchesAll(s[1..]); }
  }

  predicate EndsWith(s: string, tail: string) {
    |tail| <= |s| && s[|s| - |tail|..] == tail
  }

  lemma {:induction false} StarThenLiteral(tail: string, s: string)
    requires Literal(tail)
    ensures Plain("*" + tail)
    ensures Matches("*" + tail, s) <==> EndsWith(s, tail)
    decreases |s|
  {
    assert ("*" + tail)[1..] == tail;
    LiteralMatchesItself(tail, s);
    if s != "" {
      StarThenLiteral(tail, s[1..]);
      if |tail| < |s| { assert s[1..][|s[1..]| - |tail|..] == s[|s| - |tail|..]; }
    }
  }

  predicate NoColon(s: string) {
    forall i :: 0 <= i < |s| ==> s[i] != ':'
  }

  lemma LastField(a: string, b: string, c: string)
    requires NoColon(b) && NoColon(c) && EndsWith(a + ":" + b, ":" + c)
    ensures b == c
  {
    var s, tail := a + ":" + b, ":" + c;
    var k := |s| - |tail|;
    assert forall i :: k <= i < |s| ==> s[i] == s[k..][i - k] == tail[i - k];
    assert forall i :: k < i < |s| ==> s[i] == c[i - k - 1];
    assert forall i :: |a| < i < |s| ==> s[i] == b[i - |a| - 1];
    assert s[|a|] == ':' && s[k] == ':';
    assert k == |a|;
    assert b == s[k..][1..] && c == tail[1..];
  }

  lemma SameLastField(a: string, b: string, c: string)
    requires NoColon(b) && NoColon(c)
    ensures EndsWith(a + ":" + b, ":" + c) <==> b == c
  {
    if b == c { assert (a + ":" + b)[|a|..] == ":" + c; }
    if EndsWith(a + ":" + b, ":" + c) { LastField(a, b, c); }
  }

  lemma FirstField(a: string, b: string, c: string)
    requires NoColon(a) && NoColon(c) && c + ":" <= a + ":" + b
    ensures a == c
  {
    var s := a + ":" + b;
    assert forall i :: 0 <= i <= |c| ==> s[i] == (c + ":")[i];
    assert forall i :: 0 <= i < |c| ==> s[i] == c[i];
    assert forall i :: 0 <= i < |a| ==> s[i] == a[i];
    assert s[|a|] == ':' && s[|c|] == ':';
    assert |a| == |c|;
  }

  lemma SameFirstField(a: string, b: string, c: string)
    requires NoColon(a) && NoColon(c)
    ensures c + ":" <= a + ":" + b <==> a == c
  {
    if a == c { assert a + ":" + b == (c + ":") + b; }
    if c + ":" <= a + ":" + b { FirstField(a, b, c); }
  }

  lemma PrintedIsLiteral(n: int)
    ensures Literal(Decimal.Print(n)) && NoColon(Decimal.Print(n))
  {
    var s := Decimal.Print(n);
    forall i | 0 <= i < |s| ensures s[i] != '[' && s[i] != '\\' && s[i] != '*' && s[i] != '?' && s[i] != ':' {
      assert Decimal.IsDigit(s[i]) || s[i] == '-';
    }
  }

  /** An organisation's pattern selects exactly the keys of that organisation. */
  lemma OrgPatternSelectsItsOrg(user: int, org: int, p: int)
    ensures Plain(AuthUserOrgPattern(org))
    ensures Matches(AuthUserOrgPattern(org), AuthUserKey(user, p)) <==> p == org
  {
    var u, o, q := Decimal.Print(user), Decimal.Print(org), Decimal.Print(p);
    PrintedIsLiteral(user); PrintedIsLiteral(org); PrintedIsLiteral(p);
    var key := AuthUserKey(user, p);
    assert AuthUserOrgPattern(org) == PREFIX + ("*" + (":" + o));
    StarThenLiteral(":" + o, u + ":" + q);
    LiteralHead(PREFIX, "*" + (":" + o), key);
    assert key == PREFIX + (u + ":" + q) && key[|PREFIX|..] == u + ":" + q;
    SameLastField(u, q, o);
    if q == o { Decimal.PrintIsInjective(p, org); }
  }

  lemma SharedPrefix(p: string, a: string, b: string)
    ensures p + a <= p + b <==> a <= b
  {
    if a <= b {
      assert b == a + b[|a|..];
      assert p + b == (p + a) + b[|a|..];
    }
    if p + a <= p + b {
      assert p + b == (p + a) + (p + b)[|p + a|..];
      assert b == (p + b)[|p|..] == a + (p + b)[|p + a|..];
    }
  }

  /** A user's pattern selects exactly the keys of that user. */
  lemma UserPatternSelectsItsUser(user: int, v: int, org: int)
    ensures Plain(AuthUserPattern(user))
    ensures Matches(AuthUserPattern(user), AuthUserKey(v, org)) <==> v == user
  {
    var u, w, o := Decimal.Print(user), Decimal.Print(v), Decimal.Print(org);
    PrintedIsLiteral(user); PrintedIsLiteral(v);
    var key, head := AuthUserKey(v, org), PREFIX + (u + ":");
    assert AuthUserPattern(user) == head + "*" && key == PREFIX + (w + ":" + o);
    assert Literal(head);
    LiteralHead(head, "*", key);
    if head <= key { StarMatchesAll(key[|head|..]); }
    SharedPrefix(PREFIX, u + ":", w + ":" + o);
    SameFirstField(w, o, u);
    if w == u { Decimal.PrintIsInjective(v, user); }
  }

  lemma KeyIsLiteral(user: int, org: int)
    ensures Literal(AuthUserKey(user, org))
  {
    PrintedIsLiteral(user);
    PrintedIsLiteral(org);
    LiteralsConcat(PREFIX, Decimal.Print(user));
    LiteralsConcat(PREFIX + Decimal.Print(user), ":");
    LiteralsConcat(PREFIX + Decimal.Print(user) + ":", Decimal.Print(org));
  }

  lemma LiteralsConcat(a: string, b: string)
    requires Literal(a) && Literal(b)
    ensures Literal(a + b)
  {
    forall i | 0 <= i < |a + b| ensures (a + b)[i] !in ['[', '\\', '*', '?'] {
      assert (a + b)[i] == if i < |a| then a[i] else b[i - |a|];
    }
  }

  lemma KeysAreDistinct(user: int, org: int, v: int, p: int)
    requires AuthUserKey(user, org) == AuthUserKey(v, p)
    ensures user == v && org == p
  {
    OrgPatternSelectsItsOrg(user, org, org);
    OrgPatternSelectsItsOrg(v, org, p);
    UserPatternSelectsItsUser(user, user, org);
    UserPatternSelectsItsUser(user, v, p);
  }
}
