/** Matching of message text against quick-reply labels
    (handleMessage, internal/bot/bot.go:143-170). */
module Routing {
  import opened Types

  /** The four labels every message is also matched against, after the states' own. */
  const BuiltinQuickReplies: seq<QuickReply> := [
    QuickReply("\U{1F9F0} Галерея эмоций", "all_emotions"),
    QuickReply("\U{1F4DA} Дневники", "diaries"),
    QuickReply("\U{1F9D8}\U{200D}\U{2642}\U{FE0F} Медитации", "meditations"),
    QuickReply("Купить полный доступ \U{1F680}", "buy_access")
  ]

  /** The buttons of the given rows, row by row. */
  function RowButtons(rows: seq<QuickReplyRow>): seq<QuickReply>
    decreases |rows|
  {
    if rows == [] then []
    else RowButtons(rows[..|rows| - 1]) + rows[|rows| - 1].buttons
  }

  /** The quick replies of all states, in the order the states are visited. */
  function StateQuickReplies(scan: seq<State>): seq<QuickReply>
    decreases |scan|
  {
    if scan == [] then []
    else StateQuickReplies(scan[..|scan| - 1]) + RowButtons(scan[|scan| - 1].quickReplies)
  }

  /** Every label handleMessage compares the text with, in comparison order. */
  function AllQuickReplies(scan: seq<State>): seq<QuickReply> {
    StateQuickReplies(scan) + BuiltinQuickReplies
  }

  /** The target of the first quick reply labelled `text`. */
  function FirstMatch(replies: seq<QuickReply>, text: string): Option<string>
    decreases |replies|
  {
    if replies == [] then None
    else if replies[0].text == text then Some(replies[0].nextState)
    else FirstMatch(replies[1..], text)
  }

  /** FirstMatch finds a label exactly when one equals the text, and then it is
      the target of the first such reply. */
  lemma {:induction false} FirstMatchSpec(replies: seq<QuickReply>, text: string)
    ensures FirstMatch(replies, text).None? <==> forall i :: 0 <= i < |replies| ==> replies[i].text != text
    ensures FirstMatch(replies, text).Some? ==>
      exists i :: 0 <= i < |replies| && replies[i].text == text &&
        FirstMatch(replies, text).value == replies[i].nextState &&
        forall j :: 0 <= j < i ==> replies[j].text != text
    decreases |replies|
  {
    if replies != [] {
      var tail := replies[1..];
      FirstMatchSpec(tail, text);
      if replies[0].text != text {
        if FirstMatch(tail, text).Some? {
          var i :| 0 <= i < |tail| && tail[i].text == text &&
            FirstMatch(tail, text).value == tail[i].nextState &&
            forall j :: 0 <= j < i ==> tail[j].text != text;
          assert replies[i + 1] == tail[i];
          assert forall j :: 0 < j <= i ==> replies[j] == tail[j - 1];
        } else {
          assert forall i :: 0 < i < |replies| ==> replies[i] == tail[i - 1];
        }
      }
    }
  }

  /** A match among the first replies hides any later one; with none there,
      the later replies decide. */
  lemma {:induction false} FirstMatchAppend(a: seq<QuickReply>, b: seq<QuickReply>, text: string)
    ensures FirstMatch(a + b, text) == if FirstMatch(a, text).Some? then FirstMatch(a, text) else FirstMatch(b, text)
    decreases |a|
  {
    if a == [] {
      assert a + b == b;
    } else {
      assert (a + b)[1..] == a[1..] + b;
      FirstMatchAppend(a[1..], b, text);
    }
  }

  /** A label of some state is matched before the built-in labels: the
      built-in ones decide only when no state has a reply with that label. */
  lemma StateLabelsFirst(scan: seq<State>, text: string)
    ensures FirstMatch(AllQuickReplies(scan), text) ==
      if FirstMatch(StateQuickReplies(scan), text).Some? then FirstMatch(StateQuickReplies(scan), text)
      else FirstMatch(BuiltinQuickReplies, text)
  {
    FirstMatchAppend(StateQuickReplies(scan), BuiltinQuickReplies, text);
  }

  lemma {:induction false} RowButtonsMembership(rows: seq<QuickReplyRow>, q: QuickReply)
    ensures q in RowButtons(rows) <==> InRows(rows, q)
    decreases |rows|
  {
    if rows != [] {
      var n := |rows| - 1;
      RowButtonsMembership(rows[..n], q);
      if exists r :: 0 <= r < n && q in rows[..n][r].buttons {
        var r :| 0 <= r < n && q in rows[..n][r].buttons;
        assert rows[r] == rows[..n][r];
      }
      if exists r :: 0 <= r < |rows| && q in rows[r].buttons {
        var r :| 0 <= r < |rows| && q in rows[r].buttons;
        if r < n { assert rows[..n][r] == rows[r]; }
      }
    }
  }

  /** Some row of the given rows holds `q`. */
  predicate InRows(rows: seq<QuickReplyRow>, q: QuickReply) {
    exists r :: 0 <= r < |rows| && q in rows[r].buttons
  }

  /** Some state of `scan` yields `q` from its rows. */
  predicate InScan(scan: seq<State>, q: QuickReply) {
    exists i :: 0 <= i < |scan| && q in RowButtons(scan[i].quickReplies)
  }

  lemma {:induction false} StateRowsMembership(scan: seq<State>, q: QuickReply)
    ensures q in StateQuickReplies(scan) <==> InScan(scan, q)
    decreases |scan|
  {
    if scan != [] {
      var n := |scan| - 1;
      StateRowsMembership(scan[..n], q);
      InScanSnoc(scan, q);
    }
  }

  lemma InScanSnoc(scan: seq<State>, q: QuickReply)
    requires scan != []
    ensures var n := |scan| - 1;
      InScan(scan, q) <==> InScan(scan[..n], q) || q in RowButtons(scan[n].quickReplies)
  {
    var n := |scan| - 1;
    if InScan(scan[..n], q) {
      var i :| 0 <= i < n && q in RowButtons(scan[..n][i].quickReplies);
      assert scan[i] == scan[..n][i];
    }
    if InScan(scan, q) {
      var i :| 0 <= i < |scan| && q in RowButtons(scan[i].quickReplies);
      if i < n { assert scan[..n][i] == scan[i]; }
    }
  }

  /** The collected replies are exactly the buttons of some row of some state:
      labels are gathered from every state, not only the user's current one. */
  lemma StateQuickRepliesMembership(scan: seq<State>, q: QuickReply)
    ensures q in StateQuickReplies(scan) <==> exists i :: 0 <= i < |scan| && InRows(scan[i].quickReplies, q)
  {
    StateRowsMembership(scan, q);
    forall i | 0 <= i < |scan|
      ensures q in RowButtons(scan[i].quickReplies) <==> InRows(scan[i].quickReplies, q)
    {
      RowButtonsMembership(scan[i].quickReplies, q);
    }
  }

  /** The loops that gather every state's quick replies, then the built-in ones. */
  method CollectQuickReplies(scan: seq<State>) returns (all: seq<QuickReply>)
    ensures all == AllQuickReplies(scan)
  {
    all := [];
    var i := 0;
    while i < |scan|
      invariant 0 <= i <= |scan|
      invariant all == StateQuickReplies(scan[..i])
    {
      assert scan[..i + 1][..i] == scan[..i];
      var rows := scan[i].quickReplies;
      ghost var before := all;
      var r := 0;
      while r < |rows|
        invariant 0 <= r <= |rows|
        invariant all == before + RowButtons(rows[..r])
      {
        assert rows[..r + 1][..r] == rows[..r];
        all := all + rows[r].buttons;
        r := r + 1;
      }
      assert rows[..r] == rows;
      i := i + 1;
    }
    assert scan[..i] == scan;
    all := all + BuiltinQuickReplies;
  }

  /** The linear scan for the first reply labelled `text`. */
  method FindQuickReply(replies: seq<QuickReply>, text: string) returns (target: Option<string>)
    ensures target == FirstMatch(replies, text)
  {
    var i := 0;
    while i < |replies|
      invariant 0 <= i <= |replies|
      invariant FirstMatch(replies, text) == FirstMatch(replies[i..], text)
    {
      if replies[i].text == text {
        return Some(replies[i].nextState);
      }
      assert replies[i..][1..] == replies[i + 1..];
      i := i + 1;
    }
    return None;
  }
}
