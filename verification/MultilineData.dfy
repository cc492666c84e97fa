/** Event data of several lines: `Display` writes one data line per text line, and the parser joins
    lines that each kept their newline and skips blank ones. When is the data still itself? */
module MultilineData {
  import opened Sequences
  import opened LineFraming
  import opened SseDelivery

  /** The lines with a blank line between each two. */
  function Weave(lines: seq<string>): seq<string> {
    if |lines| <= 1 then lines else [lines[0], []] + Weave(lines[1..])
  }

  /** Non-blank lines that alternate with blank ones, starting and ending with a non-blank line, no
      carriage return in front of a newline. */
  predicate Alternating(pieces: seq<string>) {
    && pieces != [] && pieces[0] != []
    && (|pieces| > 1 ==>
          && |pieces| > 2
          && StripCr(pieces[0]) == pieces[0]
          && pieces[1] == []
          && Alternating(pieces[2..]))
  }

  lemma JoinCons(p: string, rest: seq<string>)
    requires rest != []
    ensures Join([p] + rest, NEWLINE) == p + [NEWLINE] + Join(rest, NEWLINE)
  {
    assert ([p] + rest)[1..] == rest;
  }

  lemma {:induction false} JoinTerminated(lines: seq<string>)
    requires lines != []
    ensures Terminated(lines) != []
    ensures Join(Terminated(lines), NEWLINE) == Join(Weave(lines) + [[]], NEWLINE)
  {
    var l := lines[0];
    if |lines| == 1 {
      assert Terminated(lines) == [l + [NEWLINE]];
      assert (Weave(lines) + [[]])[1..] == [[]];
      assert l + [NEWLINE] + [] == l + [NEWLINE];
    } else {
      JoinTerminated(lines[1..]);
      var parts, woven := Terminated(lines[1..]), Weave(lines[1..]) + [[]];
      assert Weave(lines) + [[]] == [l] + ([[]] + woven);
      hide Join, Weave;
      var rest := Join(woven, NEWLINE);
      calc {
        Join([l + [NEWLINE]] + parts, NEWLINE);
        { JoinCons(l + [NEWLINE], parts); }
        (l + [NEWLINE]) + [NEWLINE] + rest;
        l + [NEWLINE] + ([] + [NEWLINE] + rest);
        { JoinCons([], woven); }
        l + [NEWLINE] + Join([[]] + woven, NEWLINE);
        { JoinCons(l, [[]] + woven); }
        Join([l] + ([[]] + woven), NEWLINE);
      }
    }
  }

  lemma {:induction false} JoinSnoc(pieces: seq<string>)
    requires pieces != []
    ensures Join(pieces + [[]], NEWLINE) == Join(pieces, NEWLINE) + [NEWLINE]
  {
    assert (pieces + [[]])[1..] == pieces[1..] + [[]];
    if |pieces| == 1 {
      assert pieces[1..] + [[]] == [[]];
      assert pieces[0] + [NEWLINE] + [] == pieces[0] + [NEWLINE];
    } else {
      JoinSnoc(pieces[1..]);
      var rest := Join(pieces[1..], NEWLINE);
      assert pieces[0] + [NEWLINE] + (rest + [NEWLINE]) == (pieces[0] + [NEWLINE] + rest) + [NEWLINE];
    }
  }

  /** The two joins agree only piece by piece. */
  lemma SameJoin(pieces: seq<string>, woven: seq<string>)
    requires pieces != [] && Free(pieces, NEWLINE) && Free(woven, NEWLINE)
    ensures Join(pieces, NEWLINE) + [NEWLINE] == Join(woven + [[]], NEWLINE) <==> pieces == woven
  {
    JoinSnoc(pieces);
    if Join(pieces, NEWLINE) + [NEWLINE] == Join(woven + [[]], NEWLINE) {
      JoinThenSplit(pieces + [[]], NEWLINE);
      JoinThenSplit(woven + [[]], NEWLINE);
      assert (pieces + [[]])[..|pieces|] == pieces && (woven + [[]])[..|woven|] == woven;
    }
  }

  function Kept(pieces: seq<string>): seq<string>
    requires pieces != []
  {
    NonBlank(LinesOf(pieces))
  }

  lemma KeptStep(pieces: seq<string>)
    requires pieces != []
    ensures var first := if |pieces| > 1 then StripCr(pieces[0]) else pieces[0];
            Kept(pieces) ==
            (if first == [] then [] else [first]) + (if |pieces| > 1 then Kept(pieces[1..]) else [])
  {
    if |pieces| > 1 {
      assert LinesOf(pieces)[1..] == LinesOf(pieces[1..]);
    } else {
      assert pieces[1..] == [] && pieces == [pieces[0]];
      assert pieces[0] != [] ==> NonBlank(pieces) == [pieces[0]] + NonBlank([]);
    }
  }

  /** An alternating text is the weave of its kept lines. */
  lemma {:induction false} AlternatingWeaves(pieces: seq<string>)
    requires Alternating(pieces)
    ensures Kept(pieces) != [] && Weave(Kept(pieces)) == pieces
  {
    KeptStep(pieces);
    if |pieces| > 1 {
      var tail := pieces[2..];
      KeptStep(pieces[1..]);
      assert pieces[1..][1..] == tail;
      assert [] + Kept(tail) == Kept(tail);
      AlternatingWeaves(tail);
      assert Kept(pieces) == [pieces[0]] + Kept(tail);
      assert Kept(pieces)[1..] == Kept(tail);
      assert pieces == [pieces[0], []] + tail;
    } else {
      assert Kept(pieces) == pieces;
    }
  }

  /** A weave keeps at most the lines woven, and all of them only if it is alternating. */
  lemma {:induction false} WeaveAlternates(lines: seq<string>)
    requires lines != [] && forall i :: 0 <= i < |lines| ==> lines[i] != []
    ensures Weave(lines) != [] && |Kept(Weave(lines))| <= |lines|
    ensures Kept(Weave(lines)) == lines ==> Alternating(Weave(lines))
  {
    var woven := Weave(lines);
    if |lines| > 1 {
      var tail := Weave(lines[1..]);
      WeaveAlternates(lines[1..]);
      KeptStep(woven);
      KeptStep(woven[1..]);
      assert woven[1..][1..] == tail && woven[2..] == tail;
      assert [] + Kept(tail) == Kept(tail);
      var first := StripCr(lines[0]);
      assert Kept(woven) == (if first == [] then [] else [first]) + Kept(tail);
      if Kept(woven) == lines {
        assert first != [] && Kept(woven)[0] == first;
        assert Kept(woven)[1..] == Kept(tail);
      }
    } else {
      KeptStep(woven);
    }
  }

  lemma {:induction false} NonBlankLines(lines: seq<string>)
    ensures forall i :: 0 <= i < |NonBlank(lines)| ==> NonBlank(lines)[i] != [] && NonBlank(lines)[i] in lines
  {
    if lines != [] {
      NonBlankLines(lines[1..]);
    }
  }

  lemma {:induction false} WeaveIsFree(lines: seq<string>)
    requires forall i :: 0 <= i < |lines| ==> NEWLINE !in lines[i]
    ensures Free(Weave(lines), NEWLINE)
  {
    if |lines| > 1 {
      WeaveIsFree(lines[1..]);
    }
  }

  /** Data comes back as itself and one newline iff its lines are non-blank ones that alternate with
      blank ones; for data without a newline that is: iff it is not empty. */
  lemma DataComesBackIff(d: string)
    ensures Rejoined(TextLines(d)) == Some(d + [NEWLINE]) <==> Alternating(Split(d, NEWLINE))
  {
    var pieces := Split(d, NEWLINE);
    SplitThenJoin(d, NEWLINE);
    LinesAreFree(pieces);
    var kept := Kept(pieces);
    NonBlankLines(LinesOf(pieces));
    WeaveIsFree(kept);
    hide Split, LinesOf, NonBlank, Alternating;
    if kept != [] {
      JoinTerminated(kept);
      SameJoin(pieces, Weave(kept));
      hide Terminated, Join;
      if pieces == Weave(kept) {
        WeaveAlternates(kept);
      }
    }
    if Alternating(pieces) {
      AlternatingWeaves(pieces);
    }
  }

  /** Two lines, for instance, come back with a blank line between them. */
  lemma TwoLinesComeBackApart(a: string, b: string)
    requires a != [] && b != [] && NEWLINE !in a && NEWLINE !in b && StripCr(a) == a
    ensures Rejoined(TextLines(a + [NEWLINE] + b)) == Some(a + [NEWLINE, NEWLINE] + b + [NEWLINE])
  {
    SplitCons(a, NEWLINE, b);
    FindNone(b, NEWLINE);
    var pieces := [a] + [b];
    assert Split(a + [NEWLINE] + b, NEWLINE) == pieces && pieces[1..] == [b];
    assert LinesOf([b]) == [b];
    assert LinesOf(pieces) == [a] + LinesOf([b]);
    assert TextLines(a + [NEWLINE] + b) == [a, b];
    assert [a, b][1..] == [b] && [b][1..] == [];
    assert NonBlank([b]) == [b] + NonBlank([]);
    assert NonBlank([a, b]) == [a] + NonBlank([b]) == [a, b];
    assert Terminated([b]) == [b + [NEWLINE]] + Terminated([]);
    assert Terminated([a, b]) == [a + [NEWLINE]] + Terminated([b]);
    JoinCons(a + [NEWLINE], [b + [NEWLINE]]);
    assert Terminated([a, b]) == [a + [NEWLINE]] + [b + [NEWLINE]];
    assert Join([b + [NEWLINE]], NEWLINE) == b + [NEWLINE];
    assert Rejoined([a, b]) == Some((a + [NEWLINE]) + [NEWLINE] + (b + [NEWLINE]));
    assert (a + [NEWLINE]) + [NEWLINE] + (b + [NEWLINE]) == a + [NEWLINE, NEWLINE] + b + [NEWLINE];
  }
}
