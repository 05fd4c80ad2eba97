/**
 * The key of an hourly usage row and the dash-joined text that stands for it in the cache
 * (model/usedata.go).
 */
module UsageKey {
  datatype Key = Key(userId: nat, username: string, logType: nat, channelId: nat, modelName: string, hour: nat)

  function Digit(n: nat): char
    requires n < 10
  {
    "0123456789"[n]
  }

  /** %d */
  function Decimal(n: nat): (s: string)
    ensures '-' !in s && |s| > 0 && (|s| == 1 <==> n < 10)
  {
    if n < 10 then [Digit(n)] else Decimal(n / 10) + [Digit(n % 10)]
  }

  function Dashed(parts: seq<string>): string {
    if parts == [] then "" else if |parts| == 1 then parts[0] else parts[0] + "-" + Dashed(parts[1..])
  }

  function Parts(k: Key): seq<string> {
    [Decimal(k.userId), k.username, Decimal(k.logType), Decimal(k.channelId), k.modelName, Decimal(k.hour)]
  }

  /** "%d-%s-%d-%d-%s-%d" */
  function Text(k: Key): string {
    Dashed(Parts(k))
  }

  lemma {:induction false} DecimalInjective(m: nat, n: nat)
    requires Decimal(m) == Decimal(n)
    ensures m == n
  {
    var s := Decimal(m);
    assert forall i, j :: 0 <= i < j < 10 ==> Digit(i) != Digit(j);
    if m >= 10 {
      assert Decimal(m / 10) == s[..|s| - 1] && Decimal(n / 10) == s[..|s| - 1];
      assert Digit(m % 10) == s[|s| - 1] && Digit(n % 10) == s[|s| - 1];
      DecimalInjective(m / 10, n / 10);
    }
  }

  /** A text without dashes, a dash, and a rest can be taken apart again. */
  lemma SplitAtFirstDash(x: string, r: string, y: string, s: string)
    requires '-' !in x && '-' !in y && x + "-" + r == y + "-" + s
    ensures x == y && r == s
  {
    var t := x + "-" + r;
    assert forall i :: 0 <= i < |x| ==> t[i] == x[i] && t[i] != '-';
    assert forall i :: 0 <= i < |y| ==> t[i] == y[i] && t[i] != '-';
    assert t[|x|] == '-' && t[|y|] == '-';
    assert x == t[..|x|] && y == t[..|y|];
    assert r == t[|x| + 1..] && s == t[|y| + 1..];
  }

  lemma SplitAtLastDash(r: string, x: string, s: string, y: string)
    requires '-' !in x && '-' !in y && r + "-" + x == s + "-" + y
    ensures r == s && x == y
  {
    var t := r + "-" + x;
    assert forall i :: |r| < i < |t| ==> t[i] == x[i - |r| - 1] && t[i] != '-';
    assert forall i :: |s| < i < |t| ==> t[i] == y[i - |s| - 1] && t[i] != '-';
    assert t[|r|] == '-' && t[|s|] == '-';
    assert r == t[..|r|] && s == t[..|s|];
    assert x == t[|r| + 1..] && y == t[|s| + 1..];
  }

  lemma SplitSame(x: string, r: string, y: string, s: string)
    requires x == y && x + "-" + r == y + "-" + s
    ensures r == s
  {
    var t := x + "-" + r;
    assert r == t[|x| + 1..] && s == t[|y| + 1..];
  }

  lemma DashedCons(x: string, parts: seq<string>)
    requires parts != []
    ensures Dashed([x] + parts) == x + "-" + Dashed(parts)
  {
    assert ([x] + parts)[1..] == parts;
  }

  /** The text with its dashes written out. */
  lemma TextShape(k: Key) returns (afterId: string, afterName: string, afterType: string)
    ensures Text(k) == Decimal(k.userId) + "-" + afterId
    ensures afterId == k.username + "-" + afterName
    ensures afterName == Decimal(k.logType) + "-" + afterType
    ensures afterType == Decimal(k.channelId) + "-" + (k.modelName + "-" + Decimal(k.hour))
  {
    var p := Parts(k);
    afterId, afterName, afterType := Dashed(p[1..]), Dashed(p[2..]), Dashed(p[3..]);
    DashedCons(p[0], p[1..]);
    assert p == [p[0]] + p[1..];
    DashedCons(p[1], p[2..]);
    assert p[1..] == [p[1]] + p[2..];
    DashedCons(p[2], p[3..]);
    assert p[2..] == [p[2]] + p[3..];
    DashedCons(p[3], p[4..]);
    assert p[3..] == [p[3]] + p[4..];
    DashedCons(p[4], p[5..]);
    assert p[4..] == [p[4]] + p[5..];
    assert p[5..] == [p[5]];
  }

  /** The text identifies the key, provided a user id determines the name. */
  lemma TextInjective(a: Key, b: Key)
    requires Text(a) == Text(b) && (a.userId == b.userId ==> a.username == b.username)
    ensures a == b
  {
    var a1, a2, a3 := TextShape(a);
    var b1, b2, b3 := TextShape(b);
    SplitAtFirstDash(Decimal(a.userId), a1, Decimal(b.userId), b1);
    DecimalInjective(a.userId, b.userId);
    SplitSame(a.username, a2, b.username, b2);
    SplitAtFirstDash(Decimal(a.logType), a3, Decimal(b.logType), b3);
    DecimalInjective(a.logType, b.logType);
    SplitAtFirstDash(Decimal(a.channelId), a.modelName + "-" + Decimal(a.hour), Decimal(b.channelId), b.modelName + "-" + Decimal(b.hour));
    DecimalInjective(a.channelId, b.channelId);
    SplitAtLastDash(a.modelName, Decimal(a.hour), b.modelName, Decimal(b.hour));
    DecimalInjective(a.hour, b.hour);
  }

  lemma Reassociate(name: string, t1: string, c1: string, t2: string, c2: string, rest: string)
    ensures name + "-" + (t1 + "-" + (c1 + "-" + (t2 + "-" + c2 + "-" + rest)))
         == (name + "-" + t1 + "-" + c1) + "-" + (t2 + "-" + (c2 + "-" + rest))
  {}

  /** Without that proviso it does not: after a rename, two names of one user can share a text,
      whatever the numbers are. */
  lemma RenamedUsersCollide(id: nat, name: string, t1: nat, c1: nat, t2: nat, c2: nat, model: string, hour: nat)
    returns (a: Key, b: Key)
    ensures a.userId == b.userId == id && a.username == name && a.username != b.username
    ensures a.logType == t1 && a.channelId == c1 && b.logType == t2 && b.channelId == c2 && b.modelName == model
    ensures a.hour == b.hour == hour
    ensures Text(a) == Text(b)
  {
    a := Key(id, name, t1, c1, Decimal(t2) + "-" + Decimal(c2) + "-" + model, hour);
    b := Key(id, name + "-" + Decimal(t1) + "-" + Decimal(c1), t2, c2, model, hour);
    var a1, a2, a3 := TextShape(a);
    var b1, b2, b3 := TextShape(b);
    var rest := model + "-" + Decimal(hour);
    assert a.modelName + "-" + Decimal(hour) == Decimal(t2) + "-" + Decimal(c2) + "-" + rest;
    Reassociate(name, Decimal(t1), Decimal(c1), Decimal(t2), Decimal(c2), rest);
    assert |b.username| > |name|;
  }
}
