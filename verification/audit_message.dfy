/** The audit text written into the SYSTEM_EVENT comment of every status change. */
module AuditMessage {
  import opened IncidentTypes

  /** A resolved or closed incident going back into active investigation. */
  predicate IsReopen(from: Status, to: Status) {
    (from == Resolved || from == Closed) && to == Investigating
  }

  /** The audit text of a change from `from` to `to`; its first letter tells the
      reopen form ("Incident reopened ...") from the ordinary one ("Status changed ..."). */
  function BuildStatusMessage(from: Status, to: Status): (r: string)
    ensures |r| > 0 && r[0] == (if IsReopen(from, to) then 'I' else 'S')
  {
    if IsReopen(from, to) then
      "Incident reopened (from " + StatusName(from) + " to " + StatusName(to) + ")"
    else
      "Status changed from " + StatusName(from) + " to " + StatusName(to)
  }

  /** `word` occurs in `text` starting at position `i`. */
  predicate OccursAt(text: string, word: string, i: int) {
    0 <= i <= |text| - |word| && text[i..i + |word|] == word
  }

  /** `word` occurs in `text` at some position. */
  predicate Contains(text: string, word: string) {
    exists i | 0 <= i <= |text| - |word| :: OccursAt(text, word, i)
  }

  /** A change message spells its names with upper-case letters and `_`, so the
      only `r` in it is the one of "from", which is not followed by `e`. */
  lemma ChangeMessageLacksReopened(x: string, y: string)
    requires forall k :: 0 <= k < |x| ==> IsNameChar(x[k])
    requires forall k :: 0 <= k < |y| ==> IsNameChar(y[k])
    ensures !Contains("Status changed from " + x + " to " + y, "reopened")
  {
    var pre := "Status changed from ";
    var msg := pre + x + " to " + y;
    forall i | 0 <= i <= |msg| - 8
      ensures !OccursAt(msg, "reopened", i)
    {
      if i == 16 {
        assert msg[i..i + 8][1] == msg[17] == 'o';
      } else {
        assert msg[i] != 'r' by {
          if i < |pre| {
            assert msg[i] == pre[i];
          } else if i < |pre| + |x| {
            assert msg[i] == x[i - |pre|];
          } else if i < |pre| + |x| + 4 {
            assert msg[i] == " to "[i - |pre| - |x|];
          } else {
            assert msg[i] == y[i - |pre| - |x| - 4];
          }
        }
        assert msg[i..i + 8][0] == msg[i];
      }
    }
  }

  /** A reopen message carries the word right after "Incident ". */
  lemma ReopenMessageHasReopened(x: string, y: string)
    ensures OccursAt("Incident reopened (from " + x + " to " + y + ")", "reopened", 9)
  {
    var pre := "Incident reopened (from ";
    var msg := pre + x + " to " + y + ")";
    assert msg == pre + (x + " to " + y + ")");
    assert msg[9..17] == pre[9..17];
  }

  /** The message says "reopened" exactly for the reopening transitions. */
  lemma ReopenedIff(from: Status, to: Status)
    ensures Contains(BuildStatusMessage(from, to), "reopened") <==> IsReopen(from, to)
  {
    var msg := BuildStatusMessage(from, to);
    var x, y := StatusName(from), StatusName(to);
    if IsReopen(from, to) {
      assert msg == "Incident reopened (from " + x + " to " + y + ")";
      ReopenMessageHasReopened(x, y);
    } else {
      assert msg == "Status changed from " + x + " to " + y;
      StatusNameShape(from);
      StatusNameShape(to);
      ChangeMessageLacksReopened(x, y);
    }
  }

  /** The length of the run of name characters that `s` starts with. */
  function NameLength(s: string): (n: nat)
    ensures n <= |s|
  {
    if |s| == 0 || !IsNameChar(s[0]) then 0 else 1 + NameLength(s[1..])
  }

  /** A name followed by a non-name character is measured exactly. */
  lemma {:induction false} NameLengthOfName(a: string, rest: string)
    requires forall k :: 0 <= k < |a| ==> IsNameChar(a[k])
    requires |rest| > 0 && !IsNameChar(rest[0])
    ensures NameLength(a + rest) == |a|
  {
    if |a| > 0 {
      assert (a + rest)[1..] == a[1..] + rest;
      NameLengthOfName(a[1..], rest);
    } else {
      assert a + rest == rest;
    }
  }

  /** Two strings built as `pre + a + " to " + b + post` from names `a` and `c`
      agree only when their parts agree. */
  lemma SplitAtSeparator(pre: string, a: string, b: string, c: string, d: string, post: string)
    requires forall k :: 0 <= k < |a| ==> IsNameChar(a[k])
    requires forall k :: 0 <= k < |c| ==> IsNameChar(c[k])
    requires pre + a + " to " + b + post == pre + c + " to " + d + post
    ensures a == c && b == d
  {
    var s := pre + a + " to " + b + post;
    var t := pre + c + " to " + d + post;
    assert s[|pre|..] == a + (" to " + b + post);
    assert t[|pre|..] == c + (" to " + d + post);
    NameLengthOfName(a, " to " + b + post);
    NameLengthOfName(c, " to " + d + post);
    assert a == s[|pre|..|pre| + |a|];
    assert c == t[|pre|..|pre| + |c|];
    var from := |pre| + |a| + 4;
    assert b == s[from..from + |b|];
    assert d == t[from..from + |d|];
  }

  /** The message identifies its transition: no two transitions share a message. */
  lemma MessageInjective(f1: Status, t1: Status, f2: Status, t2: Status)
    ensures BuildStatusMessage(f1, t1) == BuildStatusMessage(f2, t2) ==> f1 == f2 && t1 == t2
  {
    var m1, m2 := BuildStatusMessage(f1, t1), BuildStatusMessage(f2, t2);
    if m1 == m2 {
      var x1, y1, x2, y2 := StatusName(f1), StatusName(t1), StatusName(f2), StatusName(t2);
      StatusNameShape(f1);
      StatusNameShape(f2);
      if IsReopen(f1, t1) {
        assert IsReopen(f2, t2);
        assert m1 == "Incident reopened (from " + x1 + " to " + y1 + ")";
        assert m2 == "Incident reopened (from " + x2 + " to " + y2 + ")";
        SplitAtSeparator("Incident reopened (from ", x1, y1, x2, y2, ")");
      } else {
        assert !IsReopen(f2, t2);
        assert m1 == "Status changed from " + x1 + " to " + y1 + "";
        assert m2 == "Status changed from " + x2 + " to " + y2 + "";
        SplitAtSeparator("Status changed from ", x1, y1, x2, y2, "");
      }
      StatusNameInjective(f1, f2);
      StatusNameInjective(t1, t2);
    }
  }
}
