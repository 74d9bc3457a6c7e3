/** Placeholder expansion of message text (replaceTemplates,
    internal/bot/handlers.go:141-153) and the attribute upsert that feeds it. */
module Templates {
  import opened Types

  /** A chat's attributes, in the order the substitution visits them. */
  type Attributes = seq<(string, string)>

  predicate OccursAt(s: string, pat: string, i: nat) {
    i + |pat| <= |s| && s[i..i + |pat|] == pat
  }

  /** `pat` is a substring of `s`. */
  predicate Occurs(s: string, pat: string) {
    exists i: nat | i <= |s| :: OccursAt(s, pat, i)
  }

  /** Leftmost, non-overlapping replacement of every occurrence of a
      non-empty `pat` by `rep`, as strings.ReplaceAll does. */
  function ReplaceAll(s: string, pat: string, rep: string): string
    requires |pat| > 0
    decreases |s|
  {
    if |s| < |pat| then s
    else if s[..|pat|] == pat then rep + ReplaceAll(s[|pat|..], pat, rep)
    else [s[0]] + ReplaceAll(s[1..], pat, rep)
  }

  lemma {:induction false} NotOccursTail(s: string, pat: string)
    requires |s| > 0 && !Occurs(s, pat)
    ensures !Occurs(s[1..], pat)
  {
    forall i: nat | OccursAt(s[1..], pat, i)
      ensures false
    {
      assert s[i + 1..i + 1 + |pat|] == s[1..][i..i + |pat|];
      assert OccursAt(s, pat, i + 1);
    }
  }

  /** Text that does not contain the pattern comes back unchanged. */
  lemma {:induction false} ReplaceAllAbsent(s: string, pat: string, rep: string)
    requires |pat| > 0 && !Occurs(s, pat)
    ensures ReplaceAll(s, pat, rep) == s
    decreases |s|
  {
    if |s| >= |pat| {
      assert !OccursAt(s, pat, 0);
      NotOccursTail(s, pat);
      ReplaceAllAbsent(s[1..], pat, rep);
      assert [s[0]] + s[1..] == s;
    }
  }

  /** Replacing a pattern by itself changes nothing. */
  lemma {:induction false} ReplaceAllSelf(s: string, pat: string)
    requires |pat| > 0
    ensures ReplaceAll(s, pat, pat) == s
    decreases |s|
  {
    if |s| >= |pat| {
      if s[..|pat|] == pat {
        ReplaceAllSelf(s[|pat|..], pat);
        assert s[..|pat|] + s[|pat|..] == s;
      } else {
        ReplaceAllSelf(s[1..], pat);
        assert [s[0]] + s[1..] == s;
      }
    }
  }

  /** The placeholder that stands for attribute `key`. */
  function Placeholder(key: string): (p: string)
    ensures |p| == |key| + 4 && p[..2] == "{{"
  {
    "{{" + key + "}}"
  }

  /** The text after one ReplaceAll per attribute, visited in order (a left fold). */
  function Expand(text: string, attrs: Attributes): string
    decreases |attrs|
  {
    if attrs == [] then text
    else
      var (key, value) := attrs[|attrs| - 1];
      ReplaceAll(Expand(text, attrs[..|attrs| - 1]), Placeholder(key), value)
  }

  /** What replaceTemplates yields: the expansion with the chat's attributes,
      or the text itself when the chat has none. */
  function ExpandFor(text: string, userData: map<ChatId, Attributes>, chat: ChatId): string {
    if chat in userData then Expand(text, userData[chat]) else text
  }

  /** Text without "{{" contains no placeholder. */
  lemma NoBracesNoPlaceholder(s: string, key: string)
    requires !Occurs(s, "{{")
    ensures !Occurs(s, Placeholder(key))
  {
    var p := Placeholder(key);
    forall i: nat | OccursAt(s, p, i)
      ensures false
    {
      assert s[i..i + 2] == p[..2];
      assert OccursAt(s, "{{", i);
    }
  }

  /** Text containing no "{{" is left unchanged by the expansion, whatever the attributes. */
  lemma {:induction false} ExpandWithoutBraces(text: string, attrs: Attributes)
    requires !Occurs(text, "{{")
    ensures Expand(text, attrs) == text
    decreases |attrs|
  {
    if attrs != [] {
      var (key, value) := attrs[|attrs| - 1];
      ExpandWithoutBraces(text, attrs[..|attrs| - 1]);
      NoBracesNoPlaceholder(text, key);
      ReplaceAllAbsent(text, Placeholder(key), value);
    }
  }

  /** An attribute whose value is its own placeholder expands to nothing new. */
  lemma {:induction false} ExpandIdentityAttributes(text: string, attrs: Attributes)
    requires forall i :: 0 <= i < |attrs| ==> attrs[i].1 == Placeholder(attrs[i].0)
    ensures Expand(text, attrs) == text
    decreases |attrs|
  {
    if attrs != [] {
      var (key, value) := attrs[|attrs| - 1];
      ExpandIdentityAttributes(text, attrs[..|attrs| - 1]);
      ReplaceAllSelf(text, Placeholder(key));
    }
  }

  /** replaceTemplates: one ReplaceAll per attribute of the chat, in order. */
  method ReplaceTemplates(text: string, userData: map<ChatId, Attributes>, chat: ChatId) returns (r: string)
    ensures r == ExpandFor(text, userData, chat)
    ensures chat !in userData ==> r == text
    ensures !Occurs(text, "{{") ==> r == text
  {
    if chat !in userData {
      return text;
    }
    var data := userData[chat];
    r := text;
    var i := 0;
    while i < |data|
      invariant 0 <= i <= |data|
      invariant r == Expand(text, data[..i])
    {
      var (key, value) := data[i];
      assert data[..i + 1][..i] == data[..i];
      r := ReplaceAll(r, Placeholder(key), value);
      i := i + 1;
    }
    assert data[..i] == data;
    if !Occurs(text, "{{") {
      ExpandWithoutBraces(text, data);
    }
  }

  /** The key set of an attribute list. */
  function Keys(attrs: Attributes): set<string> {
    set i | 0 <= i < |attrs| :: attrs[i].0
  }

  predicate DistinctKeys(attrs: Attributes) {
    forall i, j :: 0 <= i < j < |attrs| ==> attrs[i].0 != attrs[j].0
  }

  /** The value stored under `key`, if any (the first pair with that key). */
  function Lookup(attrs: Attributes, key: string): Option<string>
    decreases |attrs|
  {
    if attrs == [] then None
    else if attrs[0].0 == key then Some(attrs[0].1)
    else Lookup(attrs[1..], key)
  }

  /** An upsert of one attribute (SetUserData, internal/database/db.go:96-105):
      the value of an existing key is replaced in place, a new key is appended. */
  function Upsert(attrs: Attributes, key: string, value: string): Attributes
    decreases |attrs|
  {
    if attrs == [] then [(key, value)]
    else if attrs[0].0 == key then [(key, value)] + attrs[1..]
    else [attrs[0]] + Upsert(attrs[1..], key, value)
  }

  /** After the upsert the key reads back the new value, every other key its
      old value, the key set grows by exactly `key`, and keys stay distinct. */
  lemma {:induction false} UpsertCorrect(attrs: Attributes, key: string, value: string, other: string)
    requires DistinctKeys(attrs)
    ensures Lookup(Upsert(attrs, key, value), key) == Some(value)
    ensures other != key ==> Lookup(Upsert(attrs, key, value), other) == Lookup(attrs, other)
    ensures Keys(Upsert(attrs, key, value)) == Keys(attrs) + {key}
    ensures DistinctKeys(Upsert(attrs, key, value))
    decreases |attrs|
  {
    if attrs != [] {
      var tail := attrs[1..];
      assert DistinctKeys(tail) by {
        forall i, j | 0 <= i < j < |tail| ensures tail[i].0 != tail[j].0 {
          assert tail[i] == attrs[i + 1] && tail[j] == attrs[j + 1];
        }
      }
      assert attrs == [attrs[0]] + tail;
      KeysCons(attrs[0], tail);
      assert attrs[0].0 !in Keys(tail) by {
        forall i | 0 <= i < |tail| ensures tail[i].0 != attrs[0].0 {
          assert tail[i] == attrs[i + 1];
        }
      }
      var u := Upsert(attrs, key, value);
      if attrs[0].0 == key {
        assert u[1..] == tail;
        KeysCons((key, value), tail);
        DistinctCons((key, value), tail);
      } else {
        UpsertCorrect(tail, key, value, other);
        var ut := Upsert(tail, key, value);
        assert u[1..] == ut;
        KeysCons(attrs[0], ut);
        DistinctCons(attrs[0], ut);
      }
    }
  }

  lemma KeysCons(p: (string, string), attrs: Attributes)
    ensures Keys([p] + attrs) == {p.0} + Keys(attrs)
  {
    var s := [p] + attrs;
    forall k | k in Keys(s) ensures k in {p.0} + Keys(attrs) {
      var i :| 0 <= i < |s| && s[i].0 == k;
      if i > 0 { assert attrs[i - 1].0 == k; }
    }
    assert s[0].0 == p.0;
    forall k | k in Keys(attrs) ensures k in Keys(s) {
      var i :| 0 <= i < |attrs| && attrs[i].0 == k;
      assert s[i + 1] == attrs[i];
      assert s[i + 1].0 == k;
    }
  }

  lemma DistinctCons(p: (string, string), attrs: Attributes)
    requires DistinctKeys(attrs) && p.0 !in Keys(attrs)
    ensures DistinctKeys([p] + attrs)
  {
    var s := [p] + attrs;
    forall i, j | 0 <= i < j < |s| ensures s[i].0 != s[j].0 {
      assert s[j] == attrs[j - 1];
      if i > 0 { assert s[i] == attrs[i - 1]; }
    }
  }
}
