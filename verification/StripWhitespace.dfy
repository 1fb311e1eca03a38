/**
 Removing the whitespace of a JSON text that is not within its strings.  The
 loop counts backslashes and copies nothing until it finds something to drop;
 the reference form reads strings one escape at a time.
 */
module StripWhitespace {
  import opened Common

  /** A character with whether it belongs to a string. */
  datatype Mark = Mark(c: char, inside: bool)

  /** The characters of a text that goes on inside or outside a string. */
  function Marks(s: string, inside: bool): (r: seq<Mark>) {
    if s == "" then []
    else if !inside then [Mark(s[0], s[0] == '"')] + Marks(s[1..], s[0] == '"')
    else if s[0] == '\\' && |s| >= 2 then [Mark(s[0], true), Mark(s[1], true)] + Marks(s[2..], true)
    else [Mark(s[0], true)] + Marks(s[1..], s[0] != '"')
  }

  /** What stays: all of strings, and what is no whitespace. */
  predicate Stays(m: Mark) {
    m.inside || m.c > ' '
  }

  function Visible(ms: seq<Mark>): (r: seq<Mark>) {
    if ms == [] then [] else (if Stays(ms[0]) then [ms[0]] else []) + Visible(ms[1..])
  }

  function Chars(ms: seq<Mark>): (s: string)
    ensures |s| == |ms| && forall i :: 0 <= i < |s| ==> s[i] == ms[i].c
  {
    seq(|ms|, i requires 0 <= i < |ms| => ms[i].c)
  }

  function Stripped(s: string, inside: bool): (r: string) {
    Chars(Visible(Marks(s, inside)))
  }

  /** What is left to write, given where the loop stands. */
  ghost function Rest(s: string, str: bool, escs: nat): (r: string) {
    if str && escs % 2 == 1 then (if s == "" then "" else [s[0]] + Stripped(s[1..], true))
    else Stripped(s, str)
  }

  predicate Drops(str: bool, c: char) {
    !str && c != '"' && c <= ' '
  }

  /** Where the loop stands after a character. */
  function Next(str: bool, escs: nat, c: char): (r: (bool, nat)) {
    if !str then (c == '"', 0)
    else if c == '\\' then (true, escs + 1)
    else (c != '"' || escs % 2 == 1, 0)
  }

  /** The loop's variables: where it stands, and the copy it has begun. */
  datatype State = State(str: bool, escs: nat, p: Option<string>)

  /** One round of the loop. */
  function Stepped(t: State, s: string, i: nat): (r: State)
    requires i < |s|
  {
    var n := Next(t.str, t.escs, s[i]);
    State(n.0, n.1, match t.p
                    case Some(copy) => if Drops(t.str, s[i]) then t.p else Some(copy + [s[i]])
                    case None => if Drops(t.str, s[i]) then Some(s[..i]) else None)
  }

  function After(s: string, i: nat): (t: State)
    requires i <= |s|
    ensures !t.str ==> t.escs == 0
  {
    if i == 0 then State(false, 0, None) else Stepped(After(s, i - 1), s, i - 1)
  }

  method Strip(s: string) returns (r: string)
    ensures r == Stripped(s, false)
  {
    var p: Option<string> := None;
    var str, escs := false, 0;
    for i := 0 to |s|
      invariant 0 <= escs && State(str, escs, p) == After(s, i)
    {
      var c := s[i];
      if str {
        if c == '\\' {
          escs := escs + 1;
        } else {
          if c == '"' && escs % 2 == 0 {
            str := false;
          }
          escs := 0;
        }
      } else if c == '"' {
        str := true;
      } else if c <= ' ' {
        if p.None? {
          p := Some(s[..i]);
        }
        continue;
      }
      if p.Some? {
        p := Some(p.value + [c]);
      }
    }
    AfterAll(s);
    return if p.None? then s else p.value;
  }

  lemma FirstShown(m: Mark, ms: seq<Mark>)
    ensures Chars(Visible([m] + ms)) == (if Stays(m) then [m.c] else "") + Chars(Visible(ms))
  {
    assert ([m] + ms)[1..] == ms;
  }

  /** One character of the reference form, as the loop takes it. */
  lemma RestSteps(s: string, str: bool, escs: nat)
    requires s != "" && (!str ==> escs == 0)
    ensures var n := Next(str, escs, s[0]);
      Rest(s, str, escs) == (if Drops(str, s[0]) then "" else [s[0]]) + Rest(s[1..], n.0, n.1)
  {
    var c := s[0];
    if !str {
      FirstShown(Mark(c, c == '"'), Marks(s[1..], c == '"'));
    } else if escs % 2 == 0 && c == '\\' && |s| >= 2 {
      EscapeShown(s);
    } else if escs % 2 == 0 {
      FirstShown(Mark(c, true), Marks(s[1..], c != '"'));
    }
  }

  lemma EscapeShown(s: string)
    requires |s| >= 2 && s[0] == '\\'
    ensures Stripped(s, true) == [s[0]] + ([s[1]] + Stripped(s[1..][1..], true))
  {
    var ms := Marks(s[2..], true);
    assert s[1..][1..] == s[2..];
    assert Marks(s, true) == [Mark(s[0], true)] + ([Mark(s[1], true)] + ms);
    FirstShown(Mark(s[0], true), [Mark(s[1], true)] + ms);
    FirstShown(Mark(s[1], true), ms);
  }

  /** What has been written after `i` characters: nothing is copied while nothing was dropped. */
  ghost function Written(s: string, i: nat, p: Option<string>): (r: string)
    requires i <= |s|
  {
    if p.None? then s[..i] else p.value
  }

  /** What has been written and what is left are the whole. */
  ghost predicate OnTrack(s: string, i: nat, t: State)
    requires i <= |s|
  {
    Written(s, i, t.p) + Rest(s[i..], t.str, t.escs) == Stripped(s, false)
  }

  lemma StepKeeps(s: string, i: nat, t: State)
    requires i < |s| && (!t.str ==> t.escs == 0) && OnTrack(s, i, t)
    ensures OnTrack(s, i + 1, Stepped(t, s, i))
  {
    var n := Stepped(t, s, i);
    RestSteps(s[i..], t.str, t.escs);
    assert s[i..][1..] == s[i + 1..];
    assert s[..i] + [s[i]] == s[..i + 1];
    Regroup(Written(s, i, t.p), [s[i]], Rest(s[i + 1..], n.str, n.escs));
  }

  lemma {:induction false} AlwaysOnTrack(s: string, i: nat)
    requires i <= |s|
    ensures OnTrack(s, i, After(s, i))
  {
    if i == 0 {
      assert s[0..] == s && s[..0] == "";
    } else {
      AlwaysOnTrack(s, i - 1);
      StepKeeps(s, i - 1, After(s, i - 1));
    }
  }

  /** At the end the copy, or the text itself when nothing was dropped, is the stripped text. */
  lemma AfterAll(s: string)
    ensures var p := After(s, |s|).p; Stripped(s, false) == if p.None? then s else p.value
  {
    AlwaysOnTrack(s, |s|);
    assert s[|s|..] == "" && s[..|s|] == s;
  }

  lemma Regroup(a: string, b: string, c: string)
    ensures a + (b + c) == a + b + c && a + ("" + c) == a + c
  {
  }

  lemma MarksOfFirst(c: char, inside: bool, s: string)
    requires !(inside && c == '\\') || s == ""
    ensures Marks([c] + s, inside) == [Mark(c, inside || c == '"')] + Marks(s, if inside then c != '"' else c == '"')
  {
    assert ([c] + s)[1..] == s;
  }

  lemma MarksOfEscape(c: char, s: string)
    ensures Marks(['\\'] + ([c] + s), true) == [Mark('\\', true), Mark(c, true)] + Marks(s, true)
  {
    assert (['\\'] + ([c] + s))[2..] == s;
  }

  lemma VisibleAfter(m: Mark, ms: seq<Mark>)
    ensures Visible([m] + ms) == (if Stays(m) then [m] else []) + Visible(ms)
  {
    assert ([m] + ms)[1..] == ms;
  }

  /** Every character that stays keeps its role: no string is opened, closed or cut by what was dropped. */
  lemma {:induction false} RolesKept(s: string, inside: bool)
    ensures Marks(Stripped(s, inside), inside) == Visible(Marks(s, inside))
    decreases |s|, 1
  {
    if s == "" {
    } else if inside && s[0] == '\\' && |s| >= 2 {
      EscapeKept(s);
    } else {
      var c, next := s[0], if inside then s[0] != '"' else s[0] == '"';
      var m := Mark(c, inside || c == '"');
      RolesKept(s[1..], next);
      assert Marks(s, inside) == [m] + Marks(s[1..], next);
      VisibleAfter(m, Marks(s[1..], next));
      FirstShown(m, Marks(s[1..], next));
      if Stays(m) {
        MarksOfFirst(c, inside, Stripped(s[1..], next));
      } else {
        assert "" + Stripped(s[1..], next) == Stripped(s[1..], next);
        assert [] + Visible(Marks(s[1..], next)) == Visible(Marks(s[1..], next));
      }
    }
  }

  lemma {:induction false} EscapeKept(s: string)
    requires |s| >= 2 && s[0] == '\\'
    ensures Marks(Stripped(s, true), true) == Visible(Marks(s, true))
    decreases |s|, 0
  {
    var a, b, ms := Mark(s[0], true), Mark(s[1], true), Marks(s[2..], true);
    RolesKept(s[2..], true);
    EscapeShown(s);
    assert s[1..][1..] == s[2..];
    MarksOfEscape(s[1], Stripped(s[2..], true));
    assert Marks(s, true) == [a] + ([b] + ms);
    VisibleAfter(a, [b] + ms);
    VisibleAfter(b, ms);
  }

  lemma {:induction false} VisibleTwice(ms: seq<Mark>)
    ensures Visible(Visible(ms)) == Visible(ms)
  {
    if ms != [] {
      VisibleTwice(ms[1..]);
      if Stays(ms[0]) {
        VisibleAfter(ms[0], Visible(ms[1..]));
      } else {
        assert [] + Visible(ms[1..]) == Visible(ms[1..]);
      }
    }
  }

  /** Stripping again changes nothing. */
  lemma Idempotent(s: string)
    ensures Stripped(Stripped(s, false), false) == Stripped(s, false)
  {
    RolesKept(s, false);
    VisibleTwice(Marks(s, false));
  }

  /** Two texts strip to the same exactly if they differ in whitespace outside strings only. */
  lemma SameIff(s: string, t: string)
    ensures Stripped(s, false) == Stripped(t, false) <==> Visible(Marks(s, false)) == Visible(Marks(t, false))
  {
    RolesKept(s, false);
    RolesKept(t, false);
  }
}
