/** Streams written token by token: their scripts, and what they tell. */
module WrittenStreams {
  import opened RequestMeaning
  import opened Results
  import opened Text
  import opened Tokenizer

  /** A token with its bytes, and the bytes that must be in view behind it. */
  datatype Piece = Piece(code: Code, text: string, look: nat)

  function ScriptOf(ps: seq<Piece>): seq<Token> {
    seq(|ps|, i requires 0 <= i < |ps| => Token(ps[i].code, |ps[i].text|, ps[i].look))
  }

  function TextOf(ps: seq<Piece>): string {
    if ps == [] then "" else TextOf(ps[..|ps| - 1]) + ps[|ps| - 1].text
  }

  ghost function FeedOf(ps: seq<Piece>): Feed {
    Feed(TextOf(ps), ScriptOf(ps), 0)
  }

  /** The pieces follow the grammar from a phase on, without an error. */
  predicate InGrammar(ph: Phase, ps: seq<Piece>)
    decreases ps
  {
    ps == [] ||
    (var ph', t := Follow(ph, ps[0].code), Token(ps[0].code, |ps[0].text|, ps[0].look);
     ph' != Dead && t.code != ErrorData && TokenOk(t) && InGrammar(ph', ps[1..]))
  }

  function After(ph: Phase, ps: seq<Piece>): Phase
    decreases ps
  {
    if ps == [] then ph else After(Follow(ph, ps[0].code), ps[1..])
  }

  lemma {:induction false} GrammarSplit(ph: Phase, a: seq<Piece>, b: seq<Piece>)
    ensures InGrammar(ph, a + b) <==> InGrammar(ph, a) && InGrammar(After(ph, a), b)
    ensures After(ph, a + b) == After(After(ph, a), b)
    decreases a
  {
    if a == [] {
      assert a + b == b;
    } else {
      assert (a + b)[1..] == a[1..] + b;
      GrammarSplit(Follow(ph, a[0].code), a[1..], b);
    }
  }

  lemma {:induction false} PhaseIsAfter(ps: seq<Piece>, n: nat)
    requires n <= |ps|
    ensures PhaseAt(ScriptOf(ps), n) == After(Start, ps[..n])
  {
    if n > 0 {
      PhaseIsAfter(ps, n - 1);
      assert ps[..n] == ps[..n - 1] + [ps[n - 1]];
      GrammarSplit(Start, ps[..n - 1], [ps[n - 1]]);
      assert [ps[n - 1]][1..] == [];
    }
  }

  lemma GrammarIsWellFormed(ps: seq<Piece>)
    requires InGrammar(Start, ps)
    ensures WellFormed(ScriptOf(ps))
  {
    forall n | 0 <= n < |ps|
      ensures TokenOk(ScriptOf(ps)[n]) && ps[n].code != ErrorData && Follow(PhaseAt(ScriptOf(ps), n), ps[n].code) != Dead
    {
      assert ps == ps[..n] + ps[n..];
      GrammarSplit(Start, ps[..n], ps[n..]);
      PhaseIsAfter(ps, n);
    }
  }

  /** What the pieces mean, one after the other. */
  function Tell(r: Request, ps: seq<Piece>): Request {
    if ps == [] then r else Apply(Tell(r, ps[..|ps| - 1]), ps[|ps| - 1].code, ps[|ps| - 1].text)
  }

  lemma {:induction false} TellBoth(r: Request, a: seq<Piece>, b: seq<Piece>)
    ensures Tell(r, a + b) == Tell(Tell(r, a), b)
    decreases b
  {
    hide Apply;
    if b == [] {
      assert a + b == a;
    } else {
      var n := |b| - 1;
      TellBoth(r, a, b[..n]);
      assert (a + b)[..|a + b| - 1] == a + b[..n];
    }
  }

  lemma {:induction false} TextStarts(ps: seq<Piece>, n: nat)
    requires n <= |ps|
    ensures |TextOf(ps[..n])| <= |TextOf(ps)| && TextOf(ps)[..|TextOf(ps[..n])|] == TextOf(ps[..n])
    decreases |ps|
  {
    if n == |ps| {
      assert ps[..n] == ps;
    } else {
      TextStarts(ps[..|ps| - 1], n);
      assert ps[..|ps| - 1][..n] == ps[..n];
    }
  }

  lemma {:induction false} OffsetOf(ps: seq<Piece>, n: nat)
    requires n <= |ps|
    ensures Offset(ScriptOf(ps), 0, n) == |TextOf(ps[..n])|
  {
    if n > 0 {
      OffsetOf(ps, n - 1);
      assert ps[..n][..n - 1] == ps[..n - 1];
    }
  }

  lemma {:induction false} MeaningIsTold(ps: seq<Piece>, r: Request, n: nat)
    requires n <= |ps|
    ensures InStream(FeedOf(ps), n, 0) && Meaning(FeedOf(ps), 0, r, n, 0) == Tell(r, ps[..n])
  {
    hide Apply;
    OffsetOf(ps, n);
    TextStarts(ps, n);
    if n > 0 {
      MeaningIsTold(ps, r, n - 1);
      OffsetOf(ps, n - 1);
      assert ps[..n][..n - 1] == ps[..n - 1];
      var text := TextOf(ps)[..|TextOf(ps[..n])|];
      assert text[|TextOf(ps[..n - 1])|..] == ps[n - 1].text;
    }
  }

  lemma Unfold1(ph: Phase, a: Piece)
    ensures InGrammar(ph, [a]) <==>
              Follow(ph, a.code) != Dead && a.code != ErrorData && TokenOk(Token(a.code, |a.text|, a.look))
    ensures After(ph, [a]) == Follow(ph, a.code)
  {
    assert [a][1..] == [];
  }

  lemma InGrammar2(ph: Phase, a: Piece, b: Piece)
    requires InGrammar(ph, [a]) && InGrammar(Follow(ph, a.code), [b])
    ensures InGrammar(ph, [a, b]) && After(ph, [a, b]) == Follow(Follow(ph, a.code), b.code)
  {
    assert [a] + [b] == [a, b];
    GrammarSplit(ph, [a], [b]);
    Unfold1(ph, a);
    Unfold1(Follow(ph, a.code), b);
  }

  /** A field of the head or the trailers, written out. */
  lemma FieldInGrammar(ph: Phase, field: seq<Piece>)
    requires ph == Head || ph == Trailer
    requires |field| == 4 && field[0].code == FieldName && field[2].code == FieldValue && field[1].code == field[3].code == Skip
    requires forall i :: 0 <= i < 4 ==> field[i].text != "" || (i == 2 && field[i].look > 0)
    ensures InGrammar(ph, field) && After(ph, field) == ph
  {
    hide InGrammar, After;
    var open := if ph == Head then HeadField else TrailerField;
    Unfold1(ph, field[0]);
    Unfold1(open, field[1]);
    Unfold1(open, field[2]);
    Unfold1(ph, field[3]);
    InGrammar2(ph, field[0], field[1]);
    InGrammar2(open, field[2], field[3]);
    assert [field[0], field[1]] + [field[2], field[3]] == field;
    GrammarSplit(ph, [field[0], field[1]], [field[2], field[3]]);
  }

  lemma Tell1(r: Request, a: Piece)
    ensures Tell(r, [a]) == Apply(r, a.code, a.text)
  {
    assert [a][..0] == [];
  }

  lemma Tell2(r: Request, a: Piece, b: Piece)
    ensures Tell(r, [a, b]) == Apply(Apply(r, a.code, a.text), b.code, b.text)
  {
    assert [a] + [b] == [a, b];
    TellBoth(r, [a], [b]);
    Tell1(r, a);
    Tell1(Apply(r, a.code, a.text), b);
  }

  /** A field does what OnField does. */
  lemma TellField(r: Request, field: seq<Piece>)
    requires |field| == 4 && field[0].code == FieldName && field[2].code == FieldValue && field[1].code == field[3].code == Skip
    ensures var name := Lower(field[0].text);
            Tell(r, field) == OnField(r.(name := Some(name)), name, DecodeFieldValue(field[2].text))
  {
    hide OnField, Lower, DecodeFieldValue;
    assert [field[0], field[1]] + [field[2], field[3]] == field;
    TellBoth(r, [field[0], field[1]], [field[2], field[3]]);
    Tell2(r, field[0], field[1]);
    Tell2(Tell(r, [field[0], field[1]]), field[2], field[3]);
  }
}
