/** The request's accumulating log message: the first message replaces the
    empty log, every later one is appended after a separator. */
module Log {

  const Separator: string := " | "

  /** One write to the log. */
  function AppendLog(log: string, msg: string): (r: string)
    ensures log == "" ==> r == msg
    ensures log != "" ==> |log| <= |r| && r[..|log|] == log && r[|log|..] == Separator + msg
    ensures r == "" <==> log == "" && msg == ""
  {
    if log == "" then msg else log + Separator + msg
  }

  /** The log after writing `msgs` in order, starting from the empty log. */
  function LogAll(msgs: seq<string>): string
  {
    if |msgs| == 0 then "" else AppendLog(LogAll(msgs[..|msgs| - 1]), msgs[|msgs| - 1])
  }

  /** Reference definition: the messages joined by the separator. */
  function Join(ms: seq<string>): string
  {
    if |ms| == 0 then ""
    else if |ms| == 1 then ms[0]
    else Join(ms[..|ms| - 1]) + Separator + ms[|ms| - 1]
  }

  /** The messages from the first non-empty one on. */
  function DropLeadingEmpty(ms: seq<string>): (r: seq<string>)
    ensures |r| > 0 ==> r[0] != ""
  {
    if |ms| == 0 then []
    else if ms[0] == "" then DropLeadingEmpty(ms[1..])
    else ms
  }

  ghost predicate AllEmpty(ms: seq<string>)
  {
    forall i :: 0 <= i < |ms| ==> ms[i] == ""
  }

  lemma {:induction false} DropLeadingEmptyAppend(init: seq<string>, m: string)
    ensures DropLeadingEmpty(init + [m]) ==
      if AllEmpty(init) then (if m == "" then [] else [m]) else DropLeadingEmpty(init) + [m]
    decreases |init|
  {
    if |init| == 0 {
      assert init + [m] == [m];
      assert [m][1..] == [];
    } else {
      assert (init + [m])[0] == init[0];
      assert (init + [m])[1..] == init[1..] + [m];
      DropLeadingEmptyAppend(init[1..], m);
      if init[0] == "" {
        assert AllEmpty(init) <==> AllEmpty(init[1..]) by {
          if AllEmpty(init[1..]) {
            forall i | 0 <= i < |init|
              ensures init[i] == ""
            {
              if i > 0 {
                assert init[i] == init[1..][i - 1];
              }
            }
          }
        }
      }
    }
  }

  lemma {:induction false} DropAllEmpty(ms: seq<string>)
    requires AllEmpty(ms)
    ensures DropLeadingEmpty(ms) == []
    decreases |ms|
  {
    if |ms| > 0 {
      DropAllEmpty(ms[1..]);
    }
  }

  /** A join that starts with a non-empty message is not empty. */
  lemma {:induction false} JoinNonEmpty(ms: seq<string>)
    requires |ms| > 0 && ms[0] != ""
    ensures Join(ms) != ""
    decreases |ms|
  {
    if |ms| > 1 {
      JoinNonEmpty(ms[..|ms| - 1]);
    }
  }

  /** Writing a sequence of messages gives the separator-joined messages from
      the first non-empty one on: leading empty messages leave the log empty,
      later empty messages still add a separator. */
  lemma {:induction false} LogAllIsJoin(msgs: seq<string>)
    ensures LogAll(msgs) == Join(DropLeadingEmpty(msgs))
    decreases |msgs|
  {
    if |msgs| > 0 {
      var init := msgs[..|msgs| - 1];
      var m := msgs[|msgs| - 1];
      assert msgs == init + [m];
      LogAllIsJoin(init);
      DropLeadingEmptyAppend(init, m);
      if AllEmpty(init) {
        DropAllEmpty(init);
      } else {
        var d := DropLeadingEmpty(init);
        if |d| == 0 {
          NotAllEmptyKeepsOne(init);
        }
        JoinNonEmpty(d);
        assert (d + [m])[..|d + [m]| - 1] == d;
      }
    }
  }

  lemma {:induction false} NotAllEmptyKeepsOne(ms: seq<string>)
    requires !AllEmpty(ms)
    ensures |DropLeadingEmpty(ms)| > 0
    decreases |ms|
  {
    if ms[0] == "" {
      assert !AllEmpty(ms[1..]) by {
        var i :| 0 <= i < |ms| && ms[i] != "";
        assert ms[1..][i - 1] == ms[i];
      }
      NotAllEmptyKeepsOne(ms[1..]);
    }
  }

  /** The log stays empty exactly while every message written so far is
      empty. */
  lemma {:induction false} LogEmptyIffAllEmpty(msgs: seq<string>)
    ensures LogAll(msgs) == "" <==> AllEmpty(msgs)
  {
    LogAllIsJoin(msgs);
    if AllEmpty(msgs) {
      DropAllEmpty(msgs);
    } else {
      NotAllEmptyKeepsOne(msgs);
      JoinNonEmpty(DropLeadingEmpty(msgs));
    }
  }
}
