/**
 Subjects: dot-separated tokens, with `*` and `>` as wildcards on the subscriber's side
 (the two subject parsers of crates/aulon-core/src/subscription.rs).
 */
module Subject {
  import opened Wrappers
  import opened Bytes

  datatype SubjectError = Empty | EmptyToken | WildcardInPublish | InvalidGreaterPosition

  datatype Token = Literal(bytes: Bytes) | Star | Greater

  type Pattern = seq<Token>

  // ------------------------------------------------------------------ tokens

  /** The pieces between dots; n dots make n + 1 pieces. */
  function Split(s: Bytes): (pieces: seq<Bytes>)
    ensures |pieces| >= 1
  {
    if s == [] then [[]]
    else
      var rest := Split(s[1..]);
      if s[0] == DOT then [[]] + rest else [[s[0]] + rest[0]] + rest[1..]
  }

  function Join(pieces: seq<Bytes>): Bytes
    requires |pieces| >= 1
  {
    if |pieces| == 1 then pieces[0] else pieces[0] + [DOT] + Join(pieces[1..])
  }

  /** Splitting loses nothing, and no piece contains a dot. */
  lemma {:induction false} JoinSplit(s: Bytes)
    ensures Join(Split(s)) == s
    ensures forall piece | piece in Split(s) :: DOT !in piece
  {
    if s != [] {
      var rest := Split(s[1..]);
      JoinSplit(s[1..]);
      assert s == [s[0]] + s[1..];
      if s[0] == DOT {
        assert Split(s)[1..] == rest;
      } else {
        assert Split(s)[1..] == rest[1..];
        assert rest[0] in rest;
        assert DOT !in [s[0]] + rest[0];
        forall piece | piece in Split(s)
          ensures DOT !in piece
        {
          assert piece == [s[0]] + rest[0] || piece in rest[1..];
        }
      }
    }
  }

  ghost predicate DotFree(pieces: seq<Bytes>) {
    forall piece | piece in pieces :: DOT !in piece
  }

  lemma ShorterDotFree(pieces: seq<Bytes>)
    requires |pieces| >= 1 && pieces[0] != [] && DotFree(pieces)
    ensures pieces[0][0] != DOT && DotFree([pieces[0][1..]] + pieces[1..])
  {
    assert pieces[0] in pieces && pieces[0][0] in pieces[0];
  }

  lemma SplitFirst(s: Bytes, first: Byte, rest: seq<Bytes>, pieces: seq<Bytes>)
    requires s != [] && s[0] == first != DOT && Split(s[1..]) == rest
    requires |pieces| >= 1 && pieces[0] != [] && pieces[0][0] == first && rest == [pieces[0][1..]] + pieces[1..]
    ensures Split(s) == pieces
  {
    assert [first] + rest[0] == pieces[0] && rest[1..] == pieces[1..];
    assert [pieces[0]] + pieces[1..] == pieces;
  }

  /** They are the only pieces: whatever dot-free pieces join to a subject are its pieces. */
  lemma {:induction false} SplitUnique(pieces: seq<Bytes>)
    requires |pieces| >= 1 && forall piece | piece in pieces :: DOT !in piece
    ensures Split(Join(pieces)) == pieces
    decreases |pieces|, |pieces[0]|
  {
    var s := Join(pieces);
    if pieces[0] != [] {
      var rest := [pieces[0][1..]] + pieces[1..];
      ShorterDotFree(pieces);
      SplitUnique(rest);
      JoinFirst(pieces);
      SplitFirst(s, pieces[0][0], rest, pieces);
    } else if |pieces| > 1 {
      SplitUnique(pieces[1..]);
      assert s == [DOT] + Join(pieces[1..]) && s[1..] == Join(pieces[1..]);
      assert [[]] + pieces[1..] == pieces;
    } else {
      assert pieces == [[]];
    }
  }

  /** A piece and what comes after it. */
  lemma JoinCons(piece: Bytes, rest: seq<Bytes>)
    ensures Join([piece] + rest) == piece + JoinTail(rest)
  {
    assert ([piece] + rest)[1..] == rest;
    if rest == [] {
      assert piece + [] == piece;
    } else {
      assert piece + [DOT] + Join(rest) == piece + ([DOT] + Join(rest));
    }
  }

  function JoinTail(rest: seq<Bytes>): Bytes {
    if rest == [] then [] else [DOT] + Join(rest)
  }

  lemma JoinFirst(pieces: seq<Bytes>)
    requires |pieces| >= 1 && pieces[0] != []
    ensures Join(pieces) == [pieces[0][0]] + Join([pieces[0][1..]] + pieces[1..])
    ensures Join(pieces)[1..] == Join([pieces[0][1..]] + pieces[1..])
  {
    var first, less, rest := pieces[0][0], pieces[0][1..], pieces[1..];
    assert pieces == [pieces[0]] + rest;
    JoinCons(pieces[0], rest);
    JoinCons(less, rest);
    MoveFirst(first, less, JoinTail(rest), pieces[0]);
  }

  lemma MoveFirst(first: Byte, less: Bytes, tail: Bytes, piece: Bytes)
    requires piece == [first] + less
    ensures piece + tail == [first] + (less + tail) && (piece + tail)[1..] == less + tail
  {
  }

  // --------------------------------------------------------- the NATS rules

  /** What may be subscribed to: non-empty pieces, `>` nowhere but at the end. */
  predicate SubscriberSubject(s: Bytes) {
    var pieces := Split(s);
    s != [] && forall i | 0 <= i < |pieces| :: pieces[i] != [] && (pieces[i] == [GREATER] ==> i == |pieces| - 1)
  }

  /** What may be published to: non-empty pieces, none of them a wildcard. */
  predicate PublisherSubject(s: Bytes) {
    var pieces := Split(s);
    s != [] && forall i | 0 <= i < |pieces| :: pieces[i] != [] && pieces[i] != [STAR] && pieces[i] != [GREATER]
  }

  /** A subscribed subject covers a published one: `*` stands for one piece, a final `>` for one or more. */
  predicate Covers(pattern: Bytes, subject: Bytes) {
    PiecesCover(Split(pattern), Split(subject))
  }

  predicate PiecesCover(ps: seq<Bytes>, ss: seq<Bytes>) {
    if ps == [] then ss == []
    else if ps == [[GREATER]] then ss != []
    else ss != [] && (ps[0] == [STAR] || ps[0] == ss[0]) && PiecesCover(ps[1..], ss[1..])
  }

  // ------------------------------------------------------------------ parsing

  function Classify(piece: Bytes): Token {
    if piece == [STAR] then Star else if piece == [GREATER] then Greater else Literal(piece)
  }

  function ClassifyAll(pieces: seq<Bytes>): (p: Pattern)
    ensures |p| == |pieces|
    ensures forall i | 0 <= i < |p| :: p[i] == Classify(pieces[i])
  {
    seq(|pieces|, (i: nat) requires i < |pieces| => Classify(pieces[i]))
  }

  /** `>` is the last token or absent. */
  predicate GreaterLast(p: Pattern) {
    forall i | 0 <= i < |p| - 1 :: p[i] != Greater
  }

  // --------------------------------------------------- specification of parse

  function ParseSubscriber(s: Bytes): Result<Pattern, SubjectError> {
    var pieces := Split(s);
    if s == [] then Err(Empty)
    else if [] in pieces then Err(EmptyToken)
    else if !GreaterLast(ClassifyAll(pieces)) then Err(InvalidGreaterPosition)
    else Ok(ClassifyAll(pieces))
  }

  /** The first offending piece decides the error. */
  function PublishError(pieces: seq<Bytes>): Option<SubjectError> {
    if pieces == [] then None
    else if pieces[0] == [] then Some(EmptyToken)
    else if pieces[0] == [STAR] || pieces[0] == [GREATER] then Some(WildcardInPublish)
    else PublishError(pieces[1..])
  }

  function ParsePublisher(s: Bytes): Result<seq<Bytes>, SubjectError> {
    if s == [] then Err(Empty)
    else
      match PublishError(Split(s))
      case Some(e) => Err(e)
      case None => Ok(Split(s))
  }

  /** A literal token as the parsers produce it. */
  predicate Plain(b: Bytes) {
    b != [] && DOT !in b && b != [STAR] && b != [GREATER]
  }

  predicate WellFormed(p: Pattern) {
    && |p| >= 1
    && GreaterLast(p)
    && forall i | 0 <= i < |p| && p[i].Literal? :: Plain(p[i].bytes)
  }

  /**
   A subscriber subject is accepted exactly when the rules allow it, with one token per piece: `*` and
   `>` become the wildcards and every other piece stands for itself.  The errors are exact too.
   */
  lemma SubscriberAccepts(s: Bytes)
    ensures ParseSubscriber(s).Ok? <==> SubscriberSubject(s)
    ensures ParseSubscriber(s).Ok? ==>
              var p, pieces := ParseSubscriber(s).value, Split(s);
              && |p| == |pieces|
              && forall i | 0 <= i < |p| ::
                   && (p[i] == Star <==> pieces[i] == [STAR])
                   && (p[i] == Greater <==> pieces[i] == [GREATER])
                   && (p[i].Literal? ==> p[i].bytes == pieces[i])
    ensures ParseSubscriber(s) == Err(Empty) <==> s == []
    ensures ParseSubscriber(s) == Err(EmptyToken) <==> s != [] && [] in Split(s)
    ensures ParseSubscriber(s) == Err(InvalidGreaterPosition) <==>
              s != [] && [] !in Split(s) && exists i :: 0 <= i < |Split(s)| - 1 && Split(s)[i] == [GREATER]
  {
    var pieces := Split(s);
    var p := ClassifyAll(pieces);
    if s != [] && [] !in pieces {
      assert forall i | 0 <= i < |pieces| :: pieces[i] in pieces;
      if !GreaterLast(p) {
        var i :| 0 <= i < |p| - 1 && p[i] == Greater;
        assert pieces[i] == [GREATER];
      }
    } else if [] in pieces {
      var i :| 0 <= i < |pieces| && pieces[i] == [];
    }
  }

  /** Different subjects have different patterns. */
  lemma SubscriberInjective(a: Bytes, b: Bytes)
    requires ParseSubscriber(a).Ok? && ParseSubscriber(a) == ParseSubscriber(b)
    ensures a == b
  {
    var left, right := Split(a), Split(b);
    SubscriberAccepts(a);
    SubscriberAccepts(b);
    forall i | 0 <= i < |left|
      ensures left[i] == right[i]
    {
    }
    assert left == right;
    JoinSplit(a);
    JoinSplit(b);
  }

  lemma SubscriberWellFormed(s: Bytes)
    requires ParseSubscriber(s).Ok?
    ensures WellFormed(ParseSubscriber(s).value)
  {
    JoinSplit(s);
    var p, pieces := ParseSubscriber(s).value, Split(s);
    forall i | 0 <= i < |p| && p[i].Literal?
      ensures Plain(p[i].bytes)
    {
      assert pieces[i] in pieces;
    }
  }

  lemma {:induction false} NoPublishError(pieces: seq<Bytes>)
    ensures PublishError(pieces).None? <==> forall i | 0 <= i < |pieces| :: pieces[i] != [] && Classify(pieces[i]).Literal?
  {
    if pieces != [] {
      NoPublishError(pieces[1..]);
      if PublishError(pieces).None? {
        forall i | 0 <= i < |pieces|
          ensures pieces[i] != [] && Classify(pieces[i]).Literal?
        {
          if i > 0 {
            assert pieces[i] == pieces[1..][i - 1];
          }
        }
      } else if pieces[0] != [] && Classify(pieces[0]).Literal? {
        var i :| 0 <= i < |pieces[1..]| && !(pieces[1..][i] != [] && Classify(pieces[1..][i]).Literal?);
        assert pieces[i + 1] == pieces[1..][i];
      }
    }
  }

  /** A publish subject is accepted exactly when the rules allow it, and then it is its pieces. */
  lemma PublisherAccepts(s: Bytes)
    ensures ParsePublisher(s).Ok? <==> PublisherSubject(s)
    ensures ParsePublisher(s).Ok? ==> ParsePublisher(s).value == Split(s)
  {
    NoPublishError(Split(s));
  }

  predicate PlainPiece(piece: Bytes) {
    piece != [] && piece != [STAR] && piece != [GREATER]
  }

  lemma {:induction false} FirstOffence(pieces: seq<Bytes>) returns (i: nat)
    requires PublishError(pieces).Some?
    ensures i < |pieces| && forall j | 0 <= j < i :: PlainPiece(pieces[j])
    ensures !PlainPiece(pieces[i]) && PublishError(pieces) == Some(if pieces[i] == [] then EmptyToken else WildcardInPublish)
  {
    if PlainPiece(pieces[0]) {
      i := FirstOffence(pieces[1..]);
      i := i + 1;
    } else {
      i := 0;
    }
  }

  /** Which error a publisher gets: for no subject at all, or for the first piece that is not plain. */
  lemma PublisherRejects(s: Bytes) returns (i: nat)
    requires !PublisherSubject(s)
    ensures s == [] ==> ParsePublisher(s) == Err(Empty)
    ensures s != [] ==>
              && i < |Split(s)| && !PlainPiece(Split(s)[i]) && (forall j | 0 <= j < i :: PlainPiece(Split(s)[j]))
              && ParsePublisher(s) == Err(if Split(s)[i] == [] then EmptyToken else WildcardInPublish)
  {
    i := 0;
    PublisherAccepts(s);
    if s != [] {
      i := FirstOffence(Split(s));
    }
  }

  /** A subject accepted from a publisher is also a subscriber subject, with no wildcard in it. */
  lemma PublisherIsSubscriber(s: Bytes)
    requires ParsePublisher(s).Ok?
    ensures ParseSubscriber(s) == Ok(ClassifyAll(Split(s)))
    ensures forall i | 0 <= i < |Split(s)| :: ClassifyAll(Split(s))[i] == Literal(Split(s)[i])
  {
    NoPublishError(Split(s));
  }

  // ------------------------------------------------------------ the two loops

  method ParseSubscriberSubject(s: Bytes) returns (r: Result<Pattern, SubjectError>)
    ensures r == ParseSubscriber(s)
  {
    if s == [] {
      return Err(Empty);
    }
    var pieces := Split(s);
    var tokens: Pattern := [];
    for i := 0 to |pieces|
      invariant tokens == ClassifyAll(pieces[..i]) && [] !in pieces[..i]
    {
      if pieces[i] == [] {
        return Err(EmptyToken);
      }
      tokens := tokens + [Classify(pieces[i])];
    }
    assert pieces[..|pieces|] == pieces;
    for i := 0 to |tokens|
      invariant forall j | 0 <= j < i && j < |tokens| - 1 :: tokens[j] != Greater
    {
      if tokens[i] == Greater && i != |tokens| - 1 {
        return Err(InvalidGreaterPosition);
      }
    }
    r := Ok(tokens);
  }

  method ParsePublisherSubject(s: Bytes) returns (r: Result<seq<Bytes>, SubjectError>)
    ensures r == ParsePublisher(s)
  {
    if s == [] {
      return Err(Empty);
    }
    var pieces := Split(s);
    var tokens: seq<Bytes> := [];
    for i := 0 to |pieces|
      invariant tokens == pieces[..i] && PublishError(pieces) == PublishError(pieces[i..])
    {
      if pieces[i] == [] {
        return Err(EmptyToken);
      }
      if pieces[i] == [STAR] || pieces[i] == [GREATER] {
        return Err(WildcardInPublish);
      }
      assert pieces[i..][1..] == pieces[i + 1..];
      tokens := tokens + [pieces[i]];
    }
    assert pieces[..|pieces|] == pieces && pieces[|pieces|..] == [];
    r := Ok(tokens);
  }
}
