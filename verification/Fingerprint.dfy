/** What fingerprint_of feeds to the hash (bench/fn-stream-client.py): each token tagged by its type and
    closed by a separator. The digest itself is not part of this model. */
module Fingerprint {
  import opened Decimals

  /** One token of a completion, as an integer id or as its text. */
  datatype Token = Id(id: int) | Text(text: string)

  predicate IsDigit(c: char) { '0' <= c <= '9' }

  /** n in decimal, without padding. */
  function Plain(n: nat): (s: string)
    ensures |s| >= 1 && forall i | 0 <= i < |s| :: IsDigit(s[i])
  {
    var d := Digits(n, Width(n));
    seq(|d|, i requires 0 <= i < |d| => ('0' as int + d[i]) as char)
  }

  function Decimal(n: int): string {
    if n < 0 then ['-'] + Plain(-n) else Plain(n)
  }

  function Encoded(token: Token): string {
    match token
    case Id(id) => ['i', ':'] + Decimal(id) + [';']
    case Text(text) => ['s', ':'] + text + [';']
  }

  function Hashed(tokens: seq<Token>): string {
    if tokens == [] then [] else Hashed(tokens[..|tokens| - 1]) + Encoded(tokens[|tokens| - 1])
  }

  /** The hashing loop; an empty sequence has no fingerprint at all. */
  method HashInput(tokens: seq<Token>) returns (fed: string, any: bool)
    ensures any <==> tokens != []
    ensures fed == Hashed(tokens)
  {
    fed, any := [], false;
    if tokens == [] { return; }
    any := true;
    for i := 0 to |tokens|
      invariant fed == Hashed(tokens[..i])
    {
      var tag := if tokens[i].Id? then ['i', ':'] else ['s', ':'];
      var body := if tokens[i].Id? then Decimal(tokens[i].id) else tokens[i].text;
      fed := fed + (tag + body + [';']);
      assert tokens[..i + 1][..i] == tokens[..i];
    }
    assert tokens[..|tokens|] == tokens;
  }

  lemma NegativeForm(n: int)
    requires n < 0
    ensures Decimal(n)[0] == '-' && Decimal(n)[1..] == Plain(-n)
  {
  }

  lemma PositiveForm(n: nat)
    ensures Decimal(n) == Plain(n) && Decimal(n)[0] != '-'
  {
    assert IsDigit(Plain(n)[0]);
  }

  predicate AllDigits(s: string) { forall i | 0 <= i < |s| :: IsDigit(s[i]) }

  /** The number a string of digits denotes. */
  function Denoted(s: string): nat
    requires AllDigits(s)
  {
    if s == [] then 0 else 10 * Denoted(s[..|s| - 1]) + (s[|s| - 1] as int - '0' as int)
  }

  lemma {:induction false} DenotesValue(s: string, d: seq<nat>)
    requires |s| == |d| && forall i | 0 <= i < |d| :: d[i] < 10 && s[i] == ('0' as int + d[i]) as char
    ensures AllDigits(s) && Denoted(s) == Value(d)
  {
    if d != [] { DenotesValue(s[..|s| - 1], d[..|d| - 1]); }
  }

  /** The decimal form denotes the number, with a minus sign for a negative one and no leading zero. */
  lemma DecimalDenotes(n: int)
    ensures var digits := if n < 0 then Decimal(n)[1..] else Decimal(n);
      && AllDigits(digits) && Denoted(digits) == (if n < 0 then -n else n)
      && digits != [] && (digits[0] == '0' <==> n == 0)
    ensures Decimal(n)[0] == '-' <==> n < 0
  {
    var m := if n < 0 then -n else n;
    SignShows(n);
    if n < 0 { NegativeForm(n); }
    DenotesValue(Plain(m), Digits(m, Width(m)));
    OwnWidth(m);
    NoLeadingZero(m);
  }

  /** Distinct ids have distinct decimal forms. */
  lemma DecimalInjective(a: int, b: int)
    requires Decimal(a) == Decimal(b)
    ensures a == b
  {
    SignShows(a);
    SignShows(b);
    if a < 0 { NegativeForm(a); NegativeForm(b); PlainInjective(-a, -b); } else { PlainInjective(a, b); }
  }

  lemma SignShows(n: int)
    ensures Decimal(n)[0] == '-' <==> n < 0
  {
    if n < 0 { NegativeForm(n); } else { PositiveForm(n); }
  }

  lemma PlainInjective(a: nat, b: nat)
    requires Plain(a) == Plain(b)
    ensures a == b
  {
    var d, e := Digits(a, Width(a)), Digits(b, Width(b));
    assert |d| == |Plain(a)| && |e| == |Plain(b)|;
    forall i | 0 <= i < |d| ensures d[i] == e[i] {
      assert Plain(a)[i] == Plain(b)[i];
    }
    assert d == e;
    OwnWidth(a);
    OwnWidth(b);
  }

  /** head, a colon, a field, the separator. */
  function Closed(head: string, field: string): string {
    head + [':'] + field + [';']
  }

  predicate NoColon(s: string) { forall i | 0 <= i < |s| :: s[i] != ':' }

  lemma LastColon(x: string, s: string)
    requires NoColon(s)
    ensures Closed(x, s)[|x|] == ':' && forall i | |x| < i < |Closed(x, s)| :: Closed(x, s)[i] != ':'
  {
    forall i | |x| < i < |Closed(x, s)| ensures Closed(x, s)[i] != ':' {
      if i < |Closed(x, s)| - 1 { assert Closed(x, s)[i] == s[i - |x| - 1]; }
    }
  }

  lemma Parts(x: string, s: string)
    ensures x == Closed(x, s)[..|x|] && s == Closed(x, s)[|x| + 1..|Closed(x, s)| - 1]
  {
  }

  /** The last colon-free field of a text is determined by the text. */
  lemma LastFieldUnique(x: string, s: string, y: string, t: string)
    requires NoColon(s) && NoColon(t) && Closed(x, s) == Closed(y, t)
    ensures x == y && s == t
  {
    LastColon(x, s);
    LastColon(y, t);
    Parts(x, s);
    Parts(y, t);
  }

  predicate AllIds(tokens: seq<Token>) { forall i | 0 <= i < |tokens| :: tokens[i].Id? }

  predicate AllTexts(tokens: seq<Token>) { forall i | 0 <= i < |tokens| :: tokens[i].Text? }

  lemma DecimalHasNoColon(n: int)
    ensures NoColon(Decimal(n))
  {
    var d := Plain(if n < 0 then -n else n);
    forall i | 0 <= i < |Decimal(n)| ensures Decimal(n)[i] != ':' {
      if n >= 0 { assert IsDigit(d[i]); } else if i > 0 { assert IsDigit(d[i - 1]); }
    }
  }

  lemma Regroup(h: string, d: string)
    ensures h + (['i', ':'] + d + [';']) == Closed(h + ['i'], d)
  {
  }

  /** How a run of ids ends: with the last id's tag, digits and separator. */
  lemma HashedEndsWithId(tokens: seq<Token>)
    requires tokens != [] && tokens[|tokens| - 1].Id?
    ensures Hashed(tokens) == Closed(Hashed(tokens[..|tokens| - 1]) + ['i'], Decimal(tokens[|tokens| - 1].id))
  {
    Regroup(Hashed(tokens[..|tokens| - 1]), Decimal(tokens[|tokens| - 1].id));
  }

  lemma DropTag(a: string, b: string)
    requires a + ['i'] == b + ['i']
    ensures a == b
  {
    assert a == (a + ['i'])[..|a|] && b == (b + ['i'])[..|b|];
  }

  /** Equal hash input means an equal last id and equal input before it. */
  lemma LastIdsAgree(a: seq<Token>, x: int, b: seq<Token>, y: int)
    requires Hashed(a + [Id(x)]) == Hashed(b + [Id(y)])
    ensures x == y && Hashed(a) == Hashed(b)
  {
    HashedEndsWithId(a + [Id(x)]);
    HashedEndsWithId(b + [Id(y)]);
    assert (a + [Id(x)])[..|a|] == a && (b + [Id(y)])[..|b|] == b;
    DecimalHasNoColon(x);
    DecimalHasNoColon(y);
    LastFieldUnique(Hashed(a) + ['i'], Decimal(x), Hashed(b) + ['i'], Decimal(y));
    DecimalInjective(x, y);
    DropTag(Hashed(a), Hashed(b));
  }

  lemma LastId(a: seq<Token>)
    requires a != [] && AllIds(a)
    ensures a[|a| - 1].Id? && AllIds(a[..|a| - 1]) && a == a[..|a| - 1] + [Id(a[|a| - 1].id)]
  {
  }

  lemma HashedNonEmpty(tokens: seq<Token>)
    requires tokens != []
    ensures Hashed(tokens) != []
  {
  }

  /** Two completions made of integer ids feed the hash the same bytes only when they are the same completion. */
  lemma {:induction false} IdsDecodeUniquely(a: seq<Token>, b: seq<Token>)
    requires AllIds(a) && AllIds(b) && Hashed(a) == Hashed(b)
    ensures a == b
    decreases |a|
  {
    if a == [] || b == [] {
      if a != [] { HashedNonEmpty(a); }
      if b != [] { HashedNonEmpty(b); }
    } else {
      var m, n := |a| - 1, |b| - 1;
      LastId(a);
      LastId(b);
      LastIdsAgree(a[..m], a[m].id, b[..n], b[n].id);
      IdsDecodeUniquely(a[..m], b[..n]);
    }
  }

  lemma {:induction false} HashedStarts(tokens: seq<Token>)
    requires tokens != []
    ensures |Hashed(tokens)| > 0 && Hashed(tokens)[0] == (if tokens[0].Id? then 'i' else 's')
  {
    if |tokens| > 1 {
      HashedStarts(tokens[..|tokens| - 1]);
    } else {
      assert tokens[..0] == [];
    }
  }

  /** A completion that starts with an id and one that starts with text never feed the hash the same bytes. */
  lemma IdsNeverMatchTexts(ids: seq<Token>, texts: seq<Token>)
    requires ids != [] && AllIds(ids) && texts != [] && AllTexts(texts)
    ensures Hashed(ids) != Hashed(texts)
  {
    HashedStarts(ids);
    HashedStarts(texts);
  }

  lemma HashedOne(t: Token)
    ensures Hashed([t]) == Encoded(t)
  {
    assert [t][..0] == [];
    assert Hashed([t][..0]) == [];
  }

  lemma HashedTwo(t: Token, u: Token)
    ensures Hashed([t, u]) == Encoded(t) + Encoded(u)
  {
    assert [t, u][..1] == [t];
    HashedOne(t);
  }

  /** Two texts with what the encoding puts between them. */
  function Joined(x: string, y: string): string { x + ([';'] + ['s', ':']) + y }

  lemma Reclose(h: string, x: string, e: string, y: string)
    ensures h + (x + (e + h) + y) + e == (h + x + e) + (h + y + e)
  {
  }

  lemma EncodedJoined(x: string, y: string)
    ensures Encoded(Text(Joined(x, y))) == Encoded(Text(x)) + Encoded(Text(y))
  {
    Reclose(['s', ':'], x, [';'], y);
  }

  /** The same does not hold of text tokens: the separator may occur inside one. */
  lemma TextsCanCollide(x: string, y: string)
    ensures Hashed([Text(Joined(x, y))]) == Hashed([Text(x), Text(y)])
  {
    EncodedJoined(x, y);
    HashedOne(Text(Joined(x, y)));
    HashedTwo(Text(x), Text(y));
  }

  // ------------------------------------------------------------------ which texts decode uniquely

  /** A separator with the next tag behind it starts here. */
  predicate SeamAt(s: string, i: nat) { i + 3 <= |s| && s[i] == ';' && s[i + 1] == 's' && s[i + 2] == ':' }

  predicate Seamless(s: string) { forall i: nat | i + 3 <= |s| :: !SeamAt(s, i) }

  function Concat(pieces: seq<string>): string {
    if pieces == [] then [] else Concat(pieces[..|pieces| - 1]) + pieces[|pieces| - 1]
  }

  lemma {:induction false} ConcatFront(piece: string, rest: seq<string>)
    ensures Concat([piece] + rest) == piece + Concat(rest)
  {
    if rest == [] {
      assert ([piece] + rest)[..0] == [];
      assert [] + piece == piece + [];
    } else {
      var n := |rest| - 1;
      ConcatFront(piece, rest[..n]);
      assert ([piece] + rest)[..n + 1] == [piece] + rest[..n];
      Join(piece, Concat(rest[..n]), rest[n]);
    }
  }

  function Pieces(tokens: seq<Token>): seq<string> {
    seq(|tokens|, i requires 0 <= i < |tokens| => Encoded(tokens[i]))
  }

  lemma {:induction false} HashedIsConcat(tokens: seq<Token>)
    ensures Hashed(tokens) == Concat(Pieces(tokens))
  {
    if tokens != [] {
      HashedIsConcat(tokens[..|tokens| - 1]);
      assert Pieces(tokens)[..|tokens| - 1] == Pieces(tokens[..|tokens| - 1]);
    }
  }

  lemma HashedFront(t: Token, rest: seq<Token>)
    ensures Hashed([t] + rest) == Encoded(t) + Hashed(rest)
  {
    HashedIsConcat([t] + rest);
    HashedIsConcat(rest);
    PiecesFront(t, rest);
    ConcatFront(Encoded(t), Pieces(rest));
  }

  lemma PiecesFront(t: Token, rest: seq<Token>)
    ensures Pieces([t] + rest) == [Encoded(t)] + Pieces(rest)
  {
    var l, r := Pieces([t] + rest), [Encoded(t)] + Pieces(rest);
    forall i | 0 <= i < |l| ensures l[i] == r[i] {
      if i > 0 { assert ([t] + rest)[i] == rest[i - 1]; }
    }
  }

  lemma Join<T>(a: seq<T>, b: seq<T>, c: seq<T>)
    ensures (a + b) + c == a + (b + c)
  {
  }

  /** What follows the tag of a first text token: its text, the separator, and the other tokens. */
  function Tail(text: string, rest: string): string { text + [';'] + rest }

  lemma TextFront(tokens: seq<Token>)
    requires tokens != [] && tokens[0].Text?
    ensures Hashed(tokens) == ['s', ':'] + Tail(tokens[0].text, Hashed(tokens[1..]))
  {
    assert tokens == [tokens[0]] + tokens[1..];
    HashedFront(tokens[0], tokens[1..]);
    Join(['s', ':'] + tokens[0].text, [';'], Hashed(tokens[1..]));
    Join(['s', ':'], tokens[0].text, [';'] + Hashed(tokens[1..]));
    Join(tokens[0].text, [';'], Hashed(tokens[1..]));
    Join(['s', ':'], tokens[0].text, [';']);
  }

  lemma DropTextTag(a: string, b: string)
    requires ['s', ':'] + a == ['s', ':'] + b
    ensures a == b
  {
    assert a == (['s', ':'] + a)[2..] && b == (['s', ':'] + b)[2..];
  }

  /** What a run of text tokens feeds is nothing, or begins with a tag and has room for a separator. */
  lemma TextsBegin(tokens: seq<Token>)
    requires AllTexts(tokens)
    ensures tokens != [] ==> |Hashed(tokens)| >= 3 && Hashed(tokens)[0] == 's' && Hashed(tokens)[1] == ':'
  {
    if tokens != [] { TextFront(tokens); }
  }

  /** If the first text ends earlier on the left than on the right, the right one holds a seam. */
  lemma EarlierEndIsSeam(t: string, rest: string, u: string, other: string)
    requires Tail(t, rest) == Tail(u, other) && |t| < |u|
    requires rest != [] ==> |rest| >= 3 && rest[0] == 's' && rest[1] == ':'
    ensures SeamAt(u, |t|) && t == u[..|t|]
  {
    var l, r := Tail(t, rest), Tail(u, other);
    assert |l| == |t| + 1 + |rest| && |r| == |u| + 1 + |other|;
    assert l[|t|] == ';' && r[|u|] == ';';
    assert rest != [];
    assert l[|t| + 1] == rest[0] && l[|t| + 2] == rest[1];
    assert r[..|u|] == u;
    assert |u| != |t| + 1 && |u| != |t| + 2;
    assert u[|t|] == r[|t|] && u[|t| + 1] == r[|t| + 1] && u[|t| + 2] == r[|t| + 2];
    assert t == l[..|t|] && u[..|t|] == r[..|t|];
  }

  lemma SameEnd(t: string, rest: string, u: string, other: string)
    requires Tail(t, rest) == Tail(u, other) && |t| == |u|
    ensures t == u && rest == other
  {
    assert t == Tail(t, rest)[..|t|] && u == Tail(u, other)[..|u|];
    assert rest == Tail(t, rest)[|t| + 1..] && other == Tail(u, other)[|u| + 1..];
  }

  predicate AllSeamless(tokens: seq<Token>) {
    forall i | 0 <= i < |tokens| :: tokens[i].Text? && Seamless(tokens[i].text)
  }

  lemma SeamlessTail(tokens: seq<Token>)
    requires tokens != [] && AllSeamless(tokens)
    ensures AllTexts(tokens) && Seamless(tokens[0].text) && AllSeamless(tokens[1..]) && tokens == [tokens[0]] + tokens[1..]
  {
  }

  /** Two completions made of texts without a seam feed the hash the same bytes only when they are the same. */
  lemma {:induction false} SeamlessTextsDecodeUniquely(a: seq<Token>, b: seq<Token>)
    requires AllSeamless(a) && AllSeamless(b) && Hashed(a) == Hashed(b)
    ensures a == b
  {
    if a == [] || b == [] {
      if a != [] { HashedNonEmpty(a); }
      if b != [] { HashedNonEmpty(b); }
    } else {
      SeamlessTail(a);
      SeamlessTail(b);
      FirstTextsAgree(a, b);
      SeamlessTextsDecodeUniquely(a[1..], b[1..]);
    }
  }

  lemma FirstTextsAgree(a: seq<Token>, b: seq<Token>)
    requires a != [] && b != [] && AllTexts(a) && AllTexts(b) && Hashed(a) == Hashed(b)
    requires Seamless(a[0].text) && Seamless(b[0].text)
    ensures a[0] == b[0] && Hashed(a[1..]) == Hashed(b[1..])
  {
    var t, rest, u, other := a[0].text, Hashed(a[1..]), b[0].text, Hashed(b[1..]);
    TextFront(a);
    TextFront(b);
    DropTextTag(Tail(t, rest), Tail(u, other));
    TextsBegin(a[1..]);
    TextsBegin(b[1..]);
    if |t| < |u| { EarlierEndIsSeam(t, rest, u, other); }
    if |u| < |t| { EarlierEndIsSeam(u, other, t, rest); }
    SameEnd(t, rest, u, other);
  }

  /** Some other completion of texts feeds the hash the same bytes. */
  ghost predicate HasTwin(tokens: seq<Token>) {
    exists other :: AllTexts(other) && other != tokens && Hashed(other) == Hashed(tokens)
  }

  /** Exactly when a divergent completion of texts can go unseen: when there are two tokens or more, which then can
      be read as one, or when the one token holds a seam, where it can be read as two. */
  lemma TextsCollideIff(tokens: seq<Token>)
    requires tokens != [] && AllTexts(tokens)
    ensures HasTwin(tokens) <==> |tokens| >= 2 || !Seamless(tokens[0].text)
  {
    if |tokens| >= 2 {
      JoinedTwin(tokens);
    } else if !Seamless(tokens[0].text) {
      SplitTwin(tokens[0].text);
      assert tokens == [Text(tokens[0].text)];
    } else if HasTwin(tokens) {
      assert tokens == [Text(tokens[0].text)];
      var other :| AllTexts(other) && other != tokens && Hashed(other) == Hashed(tokens);
      LoneSeamless(tokens[0].text, other);
    }
  }

  lemma Twin(tokens: seq<Token>, other: seq<Token>)
    requires AllTexts(other) && other != tokens && Hashed(other) == Hashed(tokens)
    ensures HasTwin(tokens)
  {
  }

  /** The first two tokens read as one. */
  lemma JoinedTwin(tokens: seq<Token>)
    requires |tokens| >= 2 && AllTexts(tokens)
    ensures HasTwin(tokens)
  {
    var x, y, rest := tokens[0].text, tokens[1].text, tokens[2..];
    var other := [Text(Joined(x, y))] + rest;
    assert tokens == [Text(x)] + ([Text(y)] + rest);
    JoinedSame(x, y, rest);
    assert AllTexts(other) && |other| != |tokens|;
    Twin(tokens, other);
  }

  lemma JoinedSame(x: string, y: string, rest: seq<Token>)
    ensures Hashed([Text(Joined(x, y))] + rest) == Hashed([Text(x)] + ([Text(y)] + rest))
  {
    EncodedJoined(x, y);
    HashedFront(Text(Joined(x, y)), rest);
    HashedFront(Text(x), [Text(y)] + rest);
    HashedFront(Text(y), rest);
    Join(Encoded(Text(x)), Encoded(Text(y)), Hashed(rest));
  }

  lemma TwoAreNotOne(x: string, y: string, text: string)
    ensures AllTexts([Text(x), Text(y)]) && [Text(x), Text(y)] != [Text(text)]
  {
    assert |[Text(x), Text(y)]| != |[Text(text)]|;
  }

  lemma SplitTwin(text: string)
    requires !Seamless(text)
    ensures HasTwin([Text(text)])
  {
    var i: nat :| i + 3 <= |text| && SeamAt(text, i);
    SeamParts(text, i);
    TextsCanCollide(text[..i], text[i + 3..]);
    TwoAreNotOne(text[..i], text[i + 3..], text);
    Twin([Text(text)], [Text(text[..i]), Text(text[i + 3..])]);
  }

  lemma SeamParts(text: string, i: nat)
    requires i + 3 <= |text| && SeamAt(text, i)
    ensures text == Joined(text[..i], text[i + 3..])
  {
    assert text[i..i + 3] == [';'] + ['s', ':'];
    assert text == text[..i] + text[i..i + 3] + text[i + 3..];
  }

  lemma LoneSeamless(text: string, other: seq<Token>)
    requires Seamless(text) && AllTexts(other) && Hashed(other) == Hashed([Text(text)])
    ensures other == [Text(text)]
  {
    var lone := [Text(text)];
    HashedNonEmpty(lone);
    assert other != [];
    TextFront(lone);
    TextFront(other);
    assert lone[1..] == [];
    var u, rest := other[0].text, Hashed(other[1..]);
    DropTextTag(Tail(text, []), Tail(u, rest));
    TextsBegin(other[1..]);
    if |u| < |text| {
      EarlierEndIsSeam(u, rest, text, []);
    } else {
      assert |Tail(text, [])| == |text| + 1 && |Tail(u, rest)| == |u| + 1 + |rest|;
      SameEnd(text, [], u, rest);
      assert other[1..] == [];
      assert other == [other[0]] + other[1..];
    }
  }
}
