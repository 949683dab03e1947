// Why a trailing comma behind the only member of an object cannot stay when the member goes (jsonEdit.ts, lines 44-63).
module JsonLonely {
  import opened JsonScan
  import opened JsonScanner
  import opened JsonSyntax
  import opened JsonGrammar
  import opened JsonLex
  import opened JsonWords
  import opened JsonTree
  import opened JsonUpdate
  import opened JsonHole
  import opened JsonSetProperty
  import JsonReformat

  ghost predicate Slot(words: seq<Lexeme>, i: int) {
    0 <= i < |words| - 1 && words[i].kind.OpenBrace? && words[i + 1].kind.Comma?
  }

  /** Somewhere an opening brace is followed by a comma. */
  ghost predicate HasSlot(words: seq<Lexeme>) {
    exists i :: Slot(words, i)
  }

  lemma NoSlotConcat(a: seq<Lexeme>, b: seq<Lexeme>)
    requires !HasSlot(a) && !HasSlot(b)
    requires a == [] || b == [] || !a[|a| - 1].kind.OpenBrace? || !b[0].kind.Comma?
    ensures !HasSlot(a + b)
  {
    forall i ensures !Slot(a + b, i) {
      assert !Slot(a, i) && !Slot(b, i - |a|);
    }
  }

  lemma SlotConcat(a: seq<Lexeme>, b: seq<Lexeme>)
    requires a != [] && b != [] && a[|a| - 1].kind.OpenBrace? && b[0].kind.Comma?
    ensures HasSlot(a + b)
  {
    assert Slot(a + b, |a| - 1);
  }

  lemma ShortNoSlot(w: seq<Lexeme>)
    requires forall i :: 0 <= i < |w| ==> !w[i].kind.OpenBrace?
    ensures !HasSlot(w)
  {
  }

  lemma {:induction false} NodeNoSlot(n: Node, o: Options)
    requires WellFormed(n, o)
    ensures var w := NodeWords(n); |w| > 0 && !w[|w| - 1].kind.OpenBrace? && !HasSlot(w)
    decreases n
  {
    JsonReformat.NodeFits(n, o);
    hide HasSlot;
    match n
    case Lit(t) =>
      ShortNoSlot([Lex(t)]);
    case Obj(open, ms) =>
      MembersNoSlot(ms, true, o);
      OneNoSlot(Lex(open));
      NoSlotConcat([Lex(open)], MembersWords(ms));
    case Arr(open, xs) =>
      ItemsNoSlot(xs, true, o);
      OneNoSlot(Lex(open));
      NoSlotConcat([Lex(open)], ItemsWords(xs));
  }

  lemma OneNoSlot(l: Lexeme)
    ensures !HasSlot([l])
  {
  }

  lemma {:induction false} MembersNoSlot(ms: MemberList, first: bool, o: Options)
    requires MembersWellFormed(ms, first, o)
    ensures var w := MembersWords(ms); |w| > 0 && (first ==> !w[0].kind.Comma?) && !HasSlot(w)
    decreases ms
  {
    hide HasSlot;
    match ms
    case EndMembers(s, close) =>
      ShortNoSlot(SepWords(s) + [Lex(close)]);
    case ConsMember(s, key, colon, v, more) =>
      NodeNoSlot(v, o);
      MembersNoSlot(more, false, o);
      hide NodeWords, WellFormed;
      var name := SepWords(s) + [Lex(key), Lex(colon)];
      ShortNoSlot(name);
      NoSlotConcat(name, NodeWords(v));
      NoSlotConcat(name + NodeWords(v), MembersWords(more));
  }

  lemma {:induction false} ItemsNoSlot(xs: ItemList, first: bool, o: Options)
    requires ItemsWellFormed(xs, first, o)
    ensures var w := ItemsWords(xs); |w| > 0 && !HasSlot(w)
    decreases xs
  {
    hide HasSlot;
    match xs
    case EndItems(s, close) =>
      ShortNoSlot(SepWords(s) + [Lex(close)]);
    case ConsItem(s, v, more) =>
      NodeNoSlot(v, o);
      ItemsNoSlot(more, false, o);
      hide NodeWords, WellFormed;
      ShortNoSlot(SepWords(s));
      NoSlotConcat(SepWords(s), NodeWords(v));
      NoSlotConcat(SepWords(s) + NodeWords(v), ItemsWords(more));
  }

  /** No document has such a place. */
  lemma SlotIsNoDocument(text: Text, n: Node, o: Options)
    requires HasSlot(Lexemes(text))
    ensures !IsDocument(text, n, o)
  {
    hide HasSlot, Lexemes, NodeWords;
    if IsDocument(text, n, o) {
      WordsOfDocument(text, n, o);
      NodeNoSlot(n, o);
    }
  }

  /** Cutting out the only member leaves its trailing comma behind the opening brace. */
  lemma LonelyLeft(text: Text, n: Node, path: Keys, rest: Stream)
    requires Stands(text, n, path, rest) && Lookup(n, path).value.Obj? && Lonely(Lookup(n, path).value.members)
    ensures var m := Lookup(n, path).value;
      var b, e := TokEnd(m.open), NodeEnd(m.members.value);
      && b <= e <= |text| && Clean(text[..b] + [] + text[e..]) && HasSlot(Lexemes(text[..b] + [] + text[e..]))
  {
    hide Lexemes, Clean, NodeWords, Pre, Post, JsonCut.Marks, Lookup, WellFormed, Words, NodeEnd, Apart, HasSlot;
    var m := Lookup(n, path).value;
    var ms := m.members;
    ReplaceWellFormed(n, path, n, DEFAULT);
    ObjParts(m);
    var b := MemberSurroundings(text, n, path, rest, 0);
    var e := MemberSurroundings(text, n, path, rest, 1);
    EndPosGrows(text, ms, 0, TokEnd(m.open), b, rest);
    EndPosStep(ms, 0, TokEnd(m.open));
    NoTokens();
    var x, y := text[..b], text[e..];
    var p, a := Pre(n, path), Post(n, path);
    CommaLeft(ms, a);
    LastIs(p, Lex(m.open));
    StartsApart(y);
    EmptyApart(x, y);
    Spliced(x, [], y);
    Nothing(p + ([Lex(m.open)] + []));
    SlotConcat(p + ([Lex(m.open)] + []), MembersWords(ms.more) + a);
  }

  lemma CommaLeft(ms: MemberList, a: seq<Lexeme>)
    requires Lonely(ms) && MembersWellFormed(ms, true, DEFAULT)
    ensures var w := MembersWords(ms.more) + a; w != [] && w[0].kind.Comma? && w[0].kind.IsPunctuation()
  {
    assert MembersWords(ms.more) == [Lex(ms.more.sep.tok)] + [Lex(ms.more.close)];
  }
}
