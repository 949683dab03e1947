// Where the parts of a document stand in its text: replacing a piece of text replaces a node of the tree.
module JsonHole {
  import opened Wrappers
  import opened JsonScan
  import opened JsonScanner
  import opened JsonSyntax
  import opened JsonGrammar
  import opened JsonValue
  import opened JsonLex
  import opened JsonWords
  import opened JsonCut
  import opened JsonTree
  import opened JsonUpdate

  /** Over the tokens of a node: it begins and ends where its DOM node says. */
  lemma {:induction false} NodeSpan(text: Text, q: nat, n: Node, tail: Stream, o: Options)
    requires Clean(text) && Marks(text, q, Put(n, tail), o)
    ensures q <= NodeOffset(n) <= NodeEnd(n) <= |text|
    ensures Marks(text, NodeOffset(n), Put(n, tail), o) && Marks(text, NodeEnd(n), tail, o)
    decreases n
  {
    hide Marks, Clean;
    MarksNext(text, q, Put(n, tail), o);
    match n
    case Lit(t) =>
    case Obj(open, ms) => MembersSpan(text, TokEnd(open), ms, tail, o);
    case Arr(open, xs) => ItemsSpan(text, TokEnd(open), xs, tail, o);
  }

  lemma SepSpan(text: Text, q: nat, s: Sep, tail: Stream, o: Options) returns (q': nat)
    requires Clean(text) && Marks(text, q, PutSep(s, tail), o)
    ensures q <= q' && Marks(text, q', tail, o) && q' == (if s.AComma? then TokEnd(s.tok) else q)
  {
    hide Marks, Clean;
    if s.AComma? {
      MarksNext(text, q, PutSep(s, tail), o);
      q' := TokEnd(s.tok);
    } else {
      q' := q;
    }
  }

  lemma {:induction false} MembersSpan(text: Text, q: nat, ms: MemberList, tail: Stream, o: Options)
    requires Clean(text) && Marks(text, q, PutMembers(ms, tail), o)
    ensures q <= TokEnd(MembersClose(ms)) <= |text| && Marks(text, TokEnd(MembersClose(ms)), tail, o)
    decreases ms
  {
    hide Marks, Clean;
    match ms
    case EndMembers(s, close) =>
      var q' := SepSpan(text, q, s, More(close, tail), o);
      MarksNext(text, q', More(close, tail), o);
    case ConsMember(s, key, colon, v, more) =>
      var _ := MemberSpan(text, q, ms, tail, o);
      MembersSpan(text, NodeEnd(v), more, tail, o);
  }

  // Over one member; the result is where its name begins.
  lemma MemberSpan(text: Text, q: nat, ms: MemberList, tail: Stream, o: Options) returns (named: nat)
    requires Clean(text) && ms.ConsMember? && Marks(text, q, PutMembers(ms, tail), o)
    ensures var rest := Put(ms.value, PutMembers(ms.more, tail));
      && q <= named == ms.key.offset < TokEnd(ms.key) <= TokEnd(ms.colon) <= NodeOffset(ms.value) <= NodeEnd(ms.value) <= |text|
      && Marks(text, named, More(ms.key, More(ms.colon, rest)), o)
      && Marks(text, NodeOffset(ms.value), rest, o)
      && Marks(text, NodeEnd(ms.value), PutMembers(ms.more, tail), o)
    decreases ms, 0
  {
    hide Marks, Clean, Put, PutSep, NodeOffset, NodeEnd;
    var rest := Put(ms.value, PutMembers(ms.more, tail));
    var name := More(ms.key, More(ms.colon, rest));
    var q' := SepSpan(text, q, ms.sep, name, o);
    MarksNext(text, q', name, o);
    MarksNext(text, TokEnd(ms.key), name.tail, o);
    NodeSpan(text, TokEnd(ms.colon), ms.value, PutMembers(ms.more, tail), o);
    named := ms.key.offset;
  }

  lemma {:induction false} ItemsSpan(text: Text, q: nat, xs: ItemList, tail: Stream, o: Options)
    requires Clean(text) && Marks(text, q, PutItems(xs, tail), o)
    ensures q <= TokEnd(ItemsClose(xs)) <= |text| && Marks(text, TokEnd(ItemsClose(xs)), tail, o)
    decreases xs
  {
    hide Marks, Clean;
    match xs
    case EndItems(s, close) =>
      var q' := SepSpan(text, q, s, More(close, tail), o);
      MarksNext(text, q', More(close, tail), o);
    case ConsItem(s, v, more) =>
      var q' := SepSpan(text, q, s, Put(v, PutItems(more, tail)), o);
      NodeSpan(text, q', v, PutItems(more, tail), o);
      ItemsSpan(text, NodeEnd(v), more, tail, o);
  }

  // The stream behind the value with a key.
  lemma {:induction false} FindSpan(text: Text, q: nat, ms: MemberList, key: Text, tail: Stream, o: Options) returns (rest: Stream)
    requires Clean(text) && Marks(text, q, PutMembers(ms, tail), o) && Find(ms, key).Some?
    ensures var v := Find(ms, key).value; Marks(text, NodeOffset(v), Put(v, rest), o)
    ensures Words(rest) == WordsAfter(ms, key) + Words(tail)
    decreases ms
  {
    hide Marks, Clean, Put, PutMembers, Words;
    var named := MemberSpan(text, q, ms, tail, o);
    if ms.key.value == key {
      rest := PutMembers(ms.more, tail);
      WordsOfMembers(ms.more, tail);
    } else {
      rest := FindSpan(text, NodeEnd(ms.value), ms.more, key, tail, o);
    }
  }

  /** The stream behind the value at a path. */
  lemma {:induction false} PathSpan(text: Text, q: nat, n: Node, path: Keys, tail: Stream, o: Options) returns (rest: Stream)
    requires Clean(text) && Marks(text, q, Put(n, tail), o) && Lookup(n, path).Some?
    ensures var m := Lookup(n, path).value;
      && Marks(text, NodeOffset(m), Put(m, rest), o) && Marks(text, NodeEnd(m), rest, o)
      && q <= NodeOffset(m) <= NodeEnd(m) <= |text|
    ensures Words(rest) == Post(n, path) + Words(tail)
    decreases |path|
  {
    hide Marks, Clean, PutMembers, Words, Find, WordsAfter, NodeOffset, NodeEnd;
    NodeSpan(text, q, n, tail, o);
    if path == [] {
      rest := tail;
      assert [] + Words(tail) == Words(tail);
    } else {
      MarksNext(text, q, Put(n, tail), o);
      var v := Find(n.members, path[0]).value;
      var after := FindSpan(text, TokEnd(n.open), n.members, path[0], tail, o);
      rest := PathSpan(text, NodeOffset(v), v, path[1..], after, o);
      Regroup(Post(v, path[1..]), WordsAfter(n.members, path[0]), Words(tail));
      PathStarts(text, TokEnd(n.open), n.members, path[0], tail, o);
    }
  }

  lemma {:induction false} PathStarts(text: Text, q: nat, ms: MemberList, key: Text, tail: Stream, o: Options)
    requires Clean(text) && Marks(text, q, PutMembers(ms, tail), o) && Find(ms, key).Some?
    ensures q <= NodeOffset(Find(ms, key).value)
    decreases ms
  {
    hide Marks, Clean, Put, PutMembers;
    var named := MemberSpan(text, q, ms, tail, o);
    if ms.key.value != key {
      PathStarts(text, NodeEnd(ms.value), ms.more, key, tail, o);
    }
  }

  lemma Cancel<T>(a: seq<T>, b: seq<T>, c: seq<T>)
    requires a + c == b + c
    ensures a == b
  {
    assert |a + c| == |a| + |c| && |b + c| == |b| + |c|;
    assert a == (a + c)[..|a|] && b == (b + c)[..|b|];
  }

  // A clean text whose last token shows its end meets every text apart.
  lemma {:induction false} EndsApart(x: Text)
    requires Clean(x) && (Lexemes(x) == [] || SelfEnding(Lexemes(x)[|Lexemes(x)| - 1].kind))
    ensures forall y: Text :: Apart(x, y)
    decreases |x|
  {
    if x != [] {
      if IsTrivia(x[0]) {
        SkipOne(x);
        EndsApart(x[1..]);
        assert |x| > 1 ==> x[1..][|x[1..]| - 1] == x[|x| - 1];
        assert |x| > 1 ==> Apart(x[1..], [MINUS]) && !Stops(MINUS);
        assert |x| == 1 ==> x[|x| - 1] == x[0];
      } else {
        var lex, rest := FirstToken(x);
        EndsApartToken(x, lex, rest);
      }
    }
  }

  lemma MinusGoesOn()
    ensures !Stops(MINUS)
  {
  }

  lemma EndsApartToken(x: Text, lex: Text, rest: Text)
    requires x == lex + rest && lex != [] && IsToken(lex, rest) && Clean(rest)
    requires Lexemes(x) == [] || SelfEnding(Lexemes(x)[|Lexemes(x)| - 1].kind)
    ensures forall y: Text :: Apart(x, y)
    decreases |x|, 0
  {
    hide Scan, Lexemes, Clean, IsToken, IsTrivia, Stops, ShowsEnd, SelfEnding;
    MinusGoesOn();
    TakeToken(lex, rest);
    TokenParts(lex, rest);
    NoTokens();
    if rest == [] {
      assert Lexemes(x)[|Lexemes(x)| - 1].kind == Scan(lex + rest).kind;
      assert x[|x| - 1] == lex[|lex| - 1];
    } else {
      assert Lexemes(rest) != [] ==> Lexemes(rest)[|Lexemes(rest)| - 1] == Lexemes(x)[|Lexemes(x)| - 1];
      EndsApart(rest);
      assert Apart(rest, [MINUS]);
      assert x[|x| - 1] == rest[|rest| - 1];
    }
  }

  // A clean text whose first token is punctuation stops whatever stands in front of it.
  lemma StartsApart(y: Text)
    requires Clean(y) && (Lexemes(y) == [] || Lexemes(y)[0].kind.IsPunctuation())
    ensures forall x: Text :: Apart(x, y)
  {
    if y != [] && !IsTrivia(y[0]) {
      var lex, rest := FirstToken(y);
      TakeToken(lex, rest);
      assert Lexemes(y)[0].kind == Scan(y).kind;
    }
  }
}
