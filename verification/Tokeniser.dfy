/** How a console line becomes a command and its arguments (`GetResult` in
    server/Server/CommandHandler.cs). An exception anywhere on the way is an error reply. */
module Tokeniser {
  import opened Option

  datatype Result = Ok(args: seq<string>) | Error

  const SPACE: char := ' '
  const QUOTE: char := '\"'

  /** `Split(' ')`. */
  function Split(s: string): (pieces: seq<string>)
    ensures pieces != []
  {
    if s == "" then [""]
    else
      var rest := Split(s[1..]);
      if s[0] == SPACE then [""] + rest else [[s[0]] + rest[0]] + rest[1..]
  }

  function Join(pieces: seq<string>): string {
    if pieces == [] then ""
    else if |pieces| == 1 then pieces[0]
    else pieces[0] + [SPACE] + Join(pieces[1..])
  }

  /** Where an opened quote is closed: the first piece that ends with a quote. The search fails at an
      empty piece and at the end. */
  function Closing(pieces: seq<string>): (k: Option<nat>)
    ensures k.Some? ==> k.value < |pieces| && pieces[k.value] != ""
  {
    if pieces == [] || pieces[0] == "" then None
    else if pieces[0][|pieces[0]| - 1] == QUOTE then Some(0)
    else match Closing(pieces[1..])
      case None => None
      case Some(k) => Some(k + 1)
  }

  /** The argument in the quote that opens with these pieces, and the number of its pieces. */
  function Quoted(pieces: seq<string>): (found: Option<(string, nat)>)
    ensures found.Some? ==> 0 < found.value.1 <= |pieces|
  {
    match Closing(pieces)
    case None => None
    case Some(k) =>
      var text := Join(pieces[..k + 1]);
      if |text| < 2 then None else Some((text[1..|text| - 1], k + 1))
  }

  /** The arguments in the pieces after the command. */
  function Arguments(pieces: seq<string>): Result
    decreases |pieces|
  {
    if pieces == [] then Ok([])
    else if pieces[0] == "" then Arguments(pieces[1..])
    else if pieces[0][0] != QUOTE then After(pieces[0], Arguments(pieces[1..]))
    else match Quoted(pieces)
      case None => Error
      case Some((arg, n)) => After(arg, Arguments(pieces[n..]))
  }

  function After(arg: string, rest: Result): Result {
    if rest.Error? then Error else Ok([arg] + rest.args)
  }

  function Tokens(input: string): Result {
    After(Split(input)[0], Arguments(Split(input)[1..]))
  }

  // ---------------------------------------------------------------- the loop

  /** The pieces of an open quote, each followed by a space. */
  function Spaced(pieces: seq<string>): string {
    if pieces == [] then "" else Spaced(pieces[..|pieces| - 1]) + pieces[|pieces| - 1] + [SPACE]
  }

  lemma {:induction false} SpacedIsJoin(pieces: seq<string>)
    requires pieces != []
    ensures Spaced(pieces) == Join(pieces) + [SPACE]
    decreases |pieces|
  {
    var last := |pieces| - 1;
    if last > 0 {
      SpacedIsJoin(pieces[..last]);
      JoinConcat(pieces[..last], pieces[last..]);
      assert pieces == pieces[..last] + pieces[last..];
    }
  }

  lemma {:induction false} JoinConcat(a: seq<string>, b: seq<string>)
    requires a != [] && b != []
    ensures Join(a + b) == Join(a) + [SPACE] + Join(b)
    decreases |a|
  {
    assert (a + b)[1..] == a[1..] + b;
    if |a| > 1 {
      JoinConcat(a[1..], b);
    }
  }

  function Behind(done: seq<string>, rest: Result): Result {
    if rest.Error? then Error else Ok(done + rest.args)
  }

  function Shift(k: Option<nat>, m: nat): Option<nat> {
    match k
    case None => None
    case Some(n) => Some(n + m)
  }

  /** One piece further into an open quote. */
  lemma ClosingNext(args: seq<string>, j: nat, i: nat)
    requires j <= i < |args|
    requires Closing(args[j..]) == Shift(Closing(args[i..]), i - j)
    ensures args[i] == "" ==> Closing(args[j..]) == None
    ensures args[i] != "" && args[i][|args[i]| - 1] == QUOTE ==> Closing(args[j..]) == Some(i - j)
    ensures args[i] != "" && args[i][|args[i]| - 1] != QUOTE ==>
              Closing(args[j..]) == Shift(Closing(args[i + 1..]), i + 1 - j)
  {
    assert args[i..][0] == args[i] && args[i..][1..] == args[i + 1..];
  }

  /** The arguments from piece `i` on. */
  function From(args: seq<string>, i: nat): Result
    requires i <= |args|
  {
    Arguments(args[i..])
  }

  /** The quoted argument from piece `j` on, and its last piece. */
  function QuotedAt(args: seq<string>, j: nat): (found: Option<(string, nat)>)
    requires j <= |args|
    ensures found.Some? ==> j <= found.value.1 < |args|
  {
    match Quoted(args[j..])
    case None => None
    case Some((arg, n)) => Some((arg, j + n - 1))
  }

  lemma SpacedNext(args: seq<string>, j: nat, i: nat)
    requires j <= i < |args|
    ensures Spaced(args[j..i + 1]) == Spaced(args[j..i]) + args[i] + [SPACE]
  {
    assert args[j..i + 1][..i - j] == args[j..i];
  }

  /** `ToString(1, Length - 3)` takes off both quotes and the last space. */
  lemma Unquoted(args: seq<string>, j: nat, i: nat)
    requires j <= i < |args| && Closing(args[j..]) == Some(i - j)
    ensures var sb := Spaced(args[j..i + 1]);
            Quoted(args[j..]) == if |sb| < 3 then None else Some((sb[1..|sb| - 2], i - j + 1))
  {
    assert args[j..][..i - j + 1] == args[j..i + 1];
    SpacedIsJoin(args[j..i + 1]);
    hide Closing, Join, Spaced;
    var text := Join(args[j..i + 1]);
    assert |text| >= 2 ==> (text + [SPACE])[1..|text| - 1] == text[1..|text| - 1];
  }

  /** The do-while loop: the argument in the quote that opens at piece `j`, and its last piece. */
  method ReadQuoted(args: seq<string>, j: nat) returns (found: Option<(string, nat)>)
    requires j < |args|
    ensures found == QuotedAt(args, j)
  {
    hide Closing, Join, Spaced;
    var sb := "";
    var i: int := j - 1;
    var open := true;
    NothingYet(args, j);
    while open
      invariant j - 1 <= i < |args|
      invariant sb == Spaced(args[j..i + 1]) && (i == j - 1 ==> open)
      invariant Closing(args[j..]) == if open then Shift(Closing(args[i + 1..]), i + 1 - j) else Some(i - j)
      decreases |args| - i, open
    {
      i := i + 1;
      if i >= |args| {
        NothingLeft(args);
        return None;
      }
      SpacedNext(args, j, i);
      ClosingNext(args, j, i);
      sb := sb + args[i] + [SPACE];
      if |args[i]| == 0 {
        return None;
      }
      open := args[i][|args[i]| - 1] != QUOTE;
    }
    Unquoted(args, j, i);
    hide Quoted;
    if |sb| < 3 {
      return None;
    }
    return Some((sb[1..|sb| - 2], i));
  }

  lemma NothingYet(args: seq<string>, j: nat)
    requires j <= |args|
    ensures Spaced(args[j..j]) == "" && Shift(Closing(args[j..]), 0) == Closing(args[j..])
  {
  }

  lemma NothingLeft(args: seq<string>)
    ensures Closing(args[|args|..]) == None
  {
  }

  lemma QuotedArgument(args: seq<string>, i: nat)
    requires i < |args| && args[i] != "" && args[i][0] == QUOTE
    ensures From(args, i)
            == match QuotedAt(args, i)
               case None => Error
               case Some((arg, last)) => After(arg, From(args, last + 1))
  {
    hide Quoted;
    if Quoted(args[i..]).Some? {
      assert args[i..][Quoted(args[i..]).value.1..] == args[i + Quoted(args[i..]).value.1..];
    }
  }

  lemma PlainArgument(args: seq<string>, i: nat)
    requires i < |args| && (args[i] == "" || args[i][0] != QUOTE)
    ensures From(args, i) == if args[i] == "" then From(args, i + 1) else After(args[i], From(args, i + 1))
  {
    assert args[i..][1..] == args[i + 1..];
  }

  lemma BehindAfter(done: seq<string>, arg: string, rest: Result)
    ensures Behind(done, After(arg, rest)) == Behind(done + [arg], rest)
  {
  }

  lemma BehindFirst(input: string)
    ensures Tokens(input) == Behind([Split(input)[0]], From(Split(input), 1))
  {
  }

  lemma BehindLast(done: seq<string>, args: seq<string>)
    ensures Behind(done, From(args, |args|)) == Ok(done)
  {
  }

  lemma BehindError(done: seq<string>)
    ensures Behind(done, Error) == Error
  {
  }

  /** `GetResult` up to the lookup of the command. */
  method Tokenise(input: string) returns (result: Result)
    ensures result == Tokens(input)
  {
    hide *;
    var args := Split(input);
    var newArgs := [args[0]];
    var i := 1;
    BehindFirst(input);
    ghost var goal := Tokens(input);
    while i < |args|
      invariant 1 <= i <= |args|
      invariant goal == Behind(newArgs, From(args, i))
    {
      if |args[i]| == 0 {
        PlainArgument(args, i);
      } else if args[i][0] == QUOTE {
        QuotedArgument(args, i);
        var quoted := ReadQuoted(args, i);
        if quoted.None? {
          BehindError(newArgs);
          return Error;
        }
        var (arg, last) := quoted.value;
        BehindAfter(newArgs, arg, From(args, last + 1));
        newArgs := newArgs + [arg];
        i := last;
      } else {
        PlainArgument(args, i);
        BehindAfter(newArgs, args[i], From(args, i + 1));
        newArgs := newArgs + [args[i]];
      }
      i := i + 1;
    }
    BehindLast(newArgs, args);
    return Ok(newArgs);
  }

  // ---------------------------------------------------------------- splitting and joining

  lemma {:induction false} JoinOfSplit(s: string)
    ensures Join(Split(s)) == s
  {
    if s != "" {
      var rest := Split(s[1..]);
      JoinOfSplit(s[1..]);
      if s[0] != SPACE {
        assert Split(s) == [[s[0]] + rest[0]] + rest[1..];
        if |rest| > 1 {
          assert ([[s[0]] + rest[0]] + rest[1..])[1..] == rest[1..];
        }
      } else {
        assert ([""] + rest)[1..] == rest;
      }
    }
  }

  lemma SplitFirst(s: string)
    requires s != ""
    ensures Split(s) == if s[0] == SPACE then [""] + Split(s[1..]) else [[s[0]] + Split(s[1..])[0]] + Split(s[1..])[1..]
  {
  }

  lemma Grown(c: char, a: seq<string>, b: seq<string>)
    requires a != []
    ensures [[c] + (a + b)[0]] + (a + b)[1..] == [[c] + a[0]] + a[1..] + b
  {
  }

  lemma {:induction false} SplitConcat(a: string, b: string)
    ensures Split(a + [SPACE] + b) == Split(a) + Split(b)
  {
    if a == "" {
      assert a + [SPACE] + b == [SPACE] + b;
      assert ([SPACE] + b)[1..] == b;
    } else {
      var s := a + [SPACE] + b;
      assert s[0] == a[0] && s[1..] == a[1..] + [SPACE] + b;
      SplitFirst(s);
      SplitFirst(a);
      Grown(a[0], Split(a[1..]), Split(b));
      hide Split;
      SplitConcat(a[1..], b);
      assert [""] + (Split(a[1..]) + Split(b)) == [""] + Split(a[1..]) + Split(b);
    }
  }

  predicate NoSpace(s: string) {
    SPACE !in s
  }

  lemma {:induction false} SplitWord(s: string)
    requires NoSpace(s)
    ensures Split(s) == [s]
  {
    if s != "" {
      SplitWord(s[1..]);
      assert [s[0]] + s[1..] == s;
    }
  }

  // ---------------------------------------------------------------- which quoted texts survive

  /** No leading space, no double space, no quote directly before a space. */
  predicate Quotable(text: string) {
    && (text != "" ==> text[0] != SPACE)
    && forall i :: 0 <= i < |text| - 1 && text[i + 1] == SPACE ==> text[i] != SPACE && text[i] != QUOTE
  }

  function InQuotes(text: string): string {
    [QUOTE] + text + [QUOTE]
  }

  /** The same of a text with its quotes. */
  predicate Clean(s: string) {
    && (s != "" ==> s[0] != SPACE)
    && forall i :: 0 <= i < |s| - 1 && s[i + 1] == SPACE ==> s[i] != SPACE && s[i] != QUOTE
  }

  lemma CleanInQuotes(text: string)
    ensures Clean(InQuotes(text)) <==> Quotable(text)
  {
    var s := InQuotes(text);
    assert forall i :: 0 <= i < |text| ==> s[i + 1] == text[i];
    if Clean(s) {
      assert text != "" ==> s[0 + 1] == text[0];
      forall i | 0 <= i < |text| - 1 && text[i + 1] == SPACE ensures text[i] != SPACE && text[i] != QUOTE {
        assert s[i + 1 + 1] == SPACE;
      }
    }
    if Quotable(text) {
      forall i | 0 <= i < |s| - 1 && s[i + 1] == SPACE ensures s[i] != SPACE && s[i] != QUOTE {
        if i > 0 {
          assert s[i] == text[i - 1] && s[i + 1] == text[i - 1 + 1];
        }
      }
    }
  }

  /** The end of the word at the start of a text. */
  function WordEnd(s: string): (p: nat)
    ensures p <= |s| && NoSpace(s[..p]) && (p < |s| ==> s[p] == SPACE)
  {
    if s == "" || s[0] == SPACE then 0
    else
      var p := 1 + WordEnd(s[1..]);
      assert s[..p] == [s[0]] + s[1..][..p - 1];
      p
  }

  /** The first piece is the word at the start, and the pieces after it those behind the space. */
  lemma {:induction false} SplitAtWordEnd(s: string)
    ensures var p := WordEnd(s); Split(s) == [s[..p]] + (if p < |s| then Split(s[p + 1..]) else [])
  {
    if s != "" && s[0] != SPACE {
      var p := WordEnd(s[1..]);
      SplitAtWordEnd(s[1..]);
      assert s[..p + 1] == [s[0]] + s[1..][..p];
      assert p < |s[1..]| ==> s[1..][p + 1..] == s[p + 2..];
    } else {
      assert s[..0] == "" && (s != "" ==> s[0 + 1..] == s[1..]);
    }
  }

  /** The first piece and what follows the first space. */
  lemma SplitAtFirstSpace(s: string)
    ensures NoSpace(Split(s)[0]) && |Split(s)[0]| <= |s|
    ensures |Split(s)| == 1 ==> Split(s)[0] == s
    ensures |Split(s)| > 1 ==>
              var p := |Split(s)[0]|;
              p < |s| && s[..p] == Split(s)[0] && s[p] == SPACE && Split(s)[1..] == Split(s[p + 1..])
  {
    var p := WordEnd(s);
    assert NoSpace(s[..p]) && |s[..p]| == p;
    SplitAtWordEnd(s);
    hide *;
    if p < |s| {
      FirstAndRest(s[..p], Split(s[p + 1..]));
    } else {
      FirstAndRest(s[..p], []);
      assert s[..p] == s;
    }
  }

  lemma FirstAndRest(first: string, rest: seq<string>)
    ensures ([first] + rest)[0] == first && ([first] + rest)[1..] == rest && |[first] + rest| == 1 + |rest|
  {
  }

  lemma CleanAtFirstSpace(s: string, p: nat)
    requires p < |s| && s[p] == SPACE && NoSpace(s[..p])
    ensures Clean(s) <==> p > 0 && s[p - 1] != QUOTE && Clean(s[p + 1..])
  {
    var rest := s[p + 1..];
    assert forall i :: 0 <= i < p ==> s[i] == s[..p][i];
    assert forall i :: 0 <= i < |rest| ==> rest[i] == s[p + 1 + i];
    if Clean(s) {
      assert p > 0;
      assert s[p - 1 + 1] == SPACE;
      forall i | 0 <= i < |rest| - 1 && rest[i + 1] == SPACE ensures rest[i] != SPACE && rest[i] != QUOTE {
        assert s[p + 1 + i + 1] == SPACE;
      }
      assert rest != "" ==> s[p + 1] == rest[0];
    }
    if p > 0 && s[p - 1] != QUOTE && Clean(rest) {
      forall i | 0 <= i < |s| - 1 && s[i + 1] == SPACE ensures s[i] != SPACE && s[i] != QUOTE {
        if i > p {
          assert rest[i - p - 1 + 1] == SPACE;
        }
      }
    }
  }

  lemma NoSpaceIsClean(s: string)
    requires NoSpace(s)
    ensures Clean(s)
  {
  }

  /** The quote that a text opens is closed by its last piece exactly when the text is clean. */
  lemma {:induction false} ClosedByLast(s: string)
    requires s != "" && s[|s| - 1] == QUOTE
    ensures Closing(Split(s)) == Some(|Split(s)| - 1) <==> Clean(s)
    decreases |s|
  {
    hide *;
    var pieces := Split(s);
    SplitAtFirstSpace(s);
    if |pieces| == 1 {
      assert pieces == [s];
      NoSpaceIsClean(s);
      OnePieceCloses(s);
    } else {
      var p := |pieces[0]|;
      ClosedInRest(s, p);
      CleanAtFirstSpace(s, p);
      if p > 0 && s[p - 1] != QUOTE {
        LastStays(s, p);
        ClosedByLast(s[p + 1..]);
      }
    }
  }

  lemma OnePieceCloses(s: string)
    requires s != "" && s[|s| - 1] == QUOTE
    ensures Closing([s]) == Some(0)
  {
  }

  lemma LastStays(s: string, p: nat)
    requires p < |s| && s[p] == SPACE && s[|s| - 1] == QUOTE
    ensures p + 1 < |s| && s[p + 1..] != "" && s[p + 1..][|s[p + 1..]| - 1] == QUOTE
  {
  }

  lemma ClosingFirst(pieces: seq<string>)
    requires pieces != []
    ensures Closing(pieces) == if pieces[0] == "" then None
                               else if pieces[0][|pieces[0]| - 1] == QUOTE then Some(0)
                               else Shift(Closing(pieces[1..]), 1)
  {
  }

  lemma ClosedInRest(s: string, p: nat)
    requires |Split(s)| > 1 && p == |Split(s)[0]| < |s| && s[..p] == Split(s)[0] && Split(s)[1..] == Split(s[p + 1..])
    ensures Closing(Split(s)) == Some(|Split(s)| - 1)
            <==> p > 0 && s[p - 1] != QUOTE && Closing(Split(s[p + 1..])) == Some(|Split(s[p + 1..])| - 1)
  {
    hide Split, Closing;
    var pieces := Split(s);
    ClosingFirst(pieces);
    assert pieces[0] == "" <==> p == 0;
    assert p > 0 ==> pieces[0][p - 1] == s[p - 1];
  }

  // ---------------------------------------------------------------- the round trip

  /** An argument as it is typed. */
  datatype Arg = Plain(text: string) | Quotation(text: string) {
    function AsTyped(): string {
      if Plain? then text else InQuotes(text)
    }

    predicate Renderable() {
      if Plain? then text != "" && NoSpace(text) && text[0] != QUOTE else Quotable(text)
    }
  }

  /** An argument after one space and some more. */
  datatype Typed = Typed(more: nat, arg: Arg)

  function Spaces(n: nat): string {
    if n == 0 then "" else [SPACE] + Spaces(n - 1)
  }

  /** What follows the command on the line, with some spaces at the end. */
  function Follow(args: seq<Typed>, trailing: nat): string {
    if args == [] then Spaces(trailing)
    else [SPACE] + Spaces(args[0].more) + args[0].arg.AsTyped() + Follow(args[1..], trailing)
  }

  function Texts(args: seq<Typed>): seq<string> {
    if args == [] then [] else [args[0].arg.text] + Texts(args[1..])
  }

  function Empties(n: nat): seq<string> {
    if n == 0 then [] else [""] + Empties(n - 1)
  }

  function FollowPieces(args: seq<Typed>, trailing: nat): seq<string> {
    if args == [] then Empties(trailing)
    else Empties(args[0].more) + Split(args[0].arg.AsTyped()) + FollowPieces(args[1..], trailing)
  }

  lemma SplitLeadingSpace(s: string)
    ensures Split([SPACE] + s) == [""] + Split(s)
  {
    assert ([SPACE] + s)[1..] == s;
  }

  lemma OneSpaceMore(n: nat, s: string, pieces: seq<string>)
    requires n > 0
    ensures Spaces(n) + s == [SPACE] + (Spaces(n - 1) + s)
    ensures Empties(n) + pieces == [""] + (Empties(n - 1) + pieces)
  {
  }

  lemma NoSpaceMore(s: string, pieces: seq<string>)
    ensures Spaces(0) + s == s && Empties(0) + pieces == pieces
  {
  }

  lemma {:induction false} SplitSpaces(n: nat, s: string)
    ensures Split(Spaces(n) + s) == Empties(n) + Split(s)
  {
    hide *;
    if n == 0 {
      NoSpaceMore(s, Split(s));
    } else {
      OneSpaceMore(n, s, Split(s));
      SplitLeadingSpace(Spaces(n - 1) + s);
      SplitSpaces(n - 1, s);
    }
  }

  lemma {:induction false} EmptiesEnd(n: nat)
    ensures Empties(n) + [""] == Empties(n + 1)
  {
    if n > 0 {
      EmptiesEnd(n - 1);
      assert Empties(n) + [""] == [""] + (Empties(n - 1) + [""]);
    }
  }

  lemma SplitAfterSpaces(x: string, n: nat, s: string)
    ensures Split(x + [SPACE] + Spaces(n) + s) == Split(x) + Empties(n) + Split(s)
  {
    hide *;
    SplitSpaces(n, s);
    SplitConcat(x, Spaces(n) + s);
    assert x + [SPACE] + Spaces(n) + s == x + [SPACE] + (Spaces(n) + s);
    Regroup(Split(x), Empties(n), Split(s));
  }

  lemma Regroup(a: seq<string>, b: seq<string>, c: seq<string>)
    ensures a + b + c == a + (b + c)
  {
  }

  lemma {:induction false} SplitFollow(x: string, args: seq<Typed>, trailing: nat)
    ensures Split(x + Follow(args, trailing)) == Split(x) + FollowPieces(args, trailing)
    decreases |args|
  {
    if args == [] {
      SplitTrailing(x, trailing);
    } else {
      var a, rest := args[0], args[1..];
      var y := x + [SPACE] + Spaces(a.more) + a.arg.AsTyped();
      FollowFirst(x, args, trailing);
      hide *;
      SplitFollow(y, rest, trailing);
      SplitAfterSpaces(x, a.more, a.arg.AsTyped());
      Associate(Split(x), Empties(a.more), Split(a.arg.AsTyped()), FollowPieces(rest, trailing));
    }
  }

  lemma FollowFirst(x: string, args: seq<Typed>, trailing: nat)
    requires args != []
    ensures x + Follow(args, trailing)
            == x + [SPACE] + Spaces(args[0].more) + args[0].arg.AsTyped() + Follow(args[1..], trailing)
    ensures FollowPieces(args, trailing)
            == Empties(args[0].more) + Split(args[0].arg.AsTyped()) + FollowPieces(args[1..], trailing)
  {
    hide Spaces, Empties, Split;
  }

  lemma Associate(a: seq<string>, b: seq<string>, c: seq<string>, d: seq<string>)
    ensures a + b + c + d == a + (b + c + d)
  {
  }

  lemma SplitTrailing(x: string, n: nat)
    ensures Split(x + Spaces(n)) == Split(x) + Empties(n)
  {
    hide *;
    if n == 0 {
      NoSpaceMore("", []);
      assert x + Spaces(0) == x && Split(x) + Empties(0) == Split(x);
    } else {
      SpacesEnd(x, n);
      SplitAfterSpaces(x, n - 1, "");
      EmptiesEnd(n - 1);
      assert Split(x) + Empties(n - 1) + [""] == Split(x) + (Empties(n - 1) + [""]);
    }
  }

  lemma SpacesEnd(x: string, n: nat)
    requires n > 0
    ensures x + [SPACE] + Spaces(n - 1) + "" == x + Spaces(n)
    ensures Split("") == [""]
  {
  }

  lemma {:induction false} EmptiesAreSkipped(n: nat, pieces: seq<string>)
    ensures Arguments(Empties(n) + pieces) == Arguments(pieces)
  {
    if n == 0 {
      assert Empties(n) + pieces == pieces;
    } else {
      assert (Empties(n) + pieces)[1..] == Empties(n - 1) + pieces;
      EmptiesAreSkipped(n - 1, pieces);
    }
  }

  lemma {:induction false} ClosingAppend(a: seq<string>, b: seq<string>)
    requires Closing(a).Some?
    ensures Closing(a + b) == Closing(a)
  {
    if a[0] != "" && a[0][|a[0]| - 1] != QUOTE {
      assert (a + b)[1..] == a[1..] + b;
      ClosingAppend(a[1..], b);
    }
  }

  lemma StartsQuoted(text: string)
    ensures Split(InQuotes(text))[0] != "" && Split(InQuotes(text))[0][0] == QUOTE
  {
    SplitAtFirstSpace(InQuotes(text));
  }

  lemma QuotationIsRead(text: string, rest: seq<string>)
    requires Quotable(text)
    ensures var pieces := Split(InQuotes(text)) + rest;
            && pieces[0] != "" && pieces[0][0] == QUOTE
            && Quoted(pieces) == Some((text, |Split(InQuotes(text))|))
  {
    var s := InQuotes(text);
    var first := Split(s);
    CleanInQuotes(text);
    ClosedByLast(s);
    ClosingAppend(first, rest);
    JoinOfSplit(s);
    StartsQuoted(text);
    assert s[1..|s| - 1] == text;
    assert (first + rest)[..|first|] == first;
    hide Split, Closing, Join, Clean, Quotable, InQuotes;
  }

  /** A quote that is closed before the end, or never, does not give back the text. */
  lemma ClosedEarly(text: string)
    requires !Quotable(text)
    ensures Quoted(Split(InQuotes(text))).Some? ==> |Quoted(Split(InQuotes(text))).value.0| < |text|
  {
    var pieces := Split(InQuotes(text));
    CleanInQuotes(text);
    ClosedByLast(InQuotes(text));
    JoinOfSplit(InQuotes(text));
    hide Split, Join, Clean, Quotable;
    if Quoted(pieces).Some? {
      var k := Closing(pieces).value;
      hide Closing;
      assert pieces[..k + 1] + pieces[k + 1..] == pieces && pieces[k + 1..] != [];
      JoinConcat(pieces[..k + 1], pieces[k + 1..]);
    }
  }

  predicate EndsQuoted(s: string) {
    s != "" && s[|s| - 1] == QUOTE
  }

  lemma {:induction false} LastPieceEndsQuoted(s: string)
    requires EndsQuoted(s)
    ensures EndsQuoted(Split(s)[|Split(s)| - 1])
  {
    SplitFirst(s);
    LastOf(s, Split(s[1..]));
    hide Split;
    if |s| > 1 {
      LastPieceEndsQuoted(s[1..]);
    } else {
      SplitNothing(s[1..]);
    }
  }

  lemma SplitNothing(s: string)
    requires s == ""
    ensures Split(s) == [""]
  {
  }

  lemma LastOf(s: string, rest: seq<string>)
    requires s != "" && rest != []
    ensures |s| == 1 && rest == [""] && EndsQuoted(s) ==> EndsQuoted(([[s[0]] + rest[0]] + rest[1..])[0])
    ensures EndsQuoted(rest[|rest| - 1]) ==> EndsQuoted(([""] + rest)[|rest|])
    ensures EndsQuoted(rest[|rest| - 1]) ==> EndsQuoted(([[s[0]] + rest[0]] + rest[1..])[|rest| - 1])
  {
  }

  /** A quote that no piece closes, because of an empty piece, is not closed by what follows either. */
  lemma {:induction false} ClosingFails(a: seq<string>, b: seq<string>)
    requires a != [] && EndsQuoted(a[|a| - 1]) && Closing(a) == None
    ensures Closing(a + b) == None
  {
    if a[0] != "" {
      assert |a| > 1 && (a + b)[1..] == a[1..] + b;
      ClosingFails(a[1..], b);
    }
  }

  /** Whatever follows a text that is not quotable, the quotation is read as a shorter one or not at all. */
  lemma UnquotableIsNotRead(text: string, rest: seq<string>)
    requires !Quotable(text)
    ensures var found := Quoted(Split(InQuotes(text)) + rest);
            found.Some? ==> |found.value.0| < |text|
  {
    var pieces := Split(InQuotes(text));
    ClosedEarly(text);
    LastPieceEndsQuoted(InQuotes(text));
    hide Split, Closing, Join, Quotable, InQuotes;
    if Closing(pieces).Some? {
      ClosingAppend(pieces, rest);
      var k := Closing(pieces).value;
      assert (pieces + rest)[..k + 1] == pieces[..k + 1];
    } else {
      ClosingFails(pieces, rest);
    }
  }

  predicate PlainAsTyped(args: seq<Typed>) {
    forall a :: a in args && a.arg.Plain? ==> a.arg.Renderable()
  }

  predicate AllRenderable(args: seq<Typed>) {
    forall a :: a in args ==> a.arg.Renderable()
  }

  lemma AfterIs(arg: string, rest: Result, text: string, texts: seq<string>)
    ensures After(arg, rest) == Ok([text] + texts) <==> arg == text && rest == Ok(texts)
  {
    if rest.Ok? && [arg] + rest.args == [text] + texts {
      assert ([arg] + rest.args)[0] == arg && ([arg] + rest.args)[1..] == rest.args;
      assert ([text] + texts)[0] == text && ([text] + texts)[1..] == texts;
    }
  }

  /** The first argument typed and the pieces after it. */
  lemma FirstIsRead(arg: Arg, rest: seq<string>, texts: seq<string>)
    requires arg.Plain? ==> arg.Renderable()
    ensures Arguments(Split(arg.AsTyped()) + rest) == Ok([arg.text] + texts)
            <==> arg.Renderable() && Arguments(rest) == Ok(texts)
  {
    var typed := Split(arg.AsTyped());
    if arg.Plain? {
      SplitWord(arg.text);
      assert (typed + rest)[1..] == rest;
      AfterIs(arg.text, Arguments(rest), arg.text, texts);
    } else {
      StartsQuoted(arg.text);
      assert (typed + rest)[0] == typed[0];
      if Quotable(arg.text) {
        QuotationIsRead(arg.text, rest);
        assert (typed + rest)[|typed|..] == rest;
        AfterIs(arg.text, Arguments(rest), arg.text, texts);
      } else {
        UnquotableIsNotRead(arg.text, rest);
        var found := Quoted(typed + rest);
        if found.Some? {
          AfterIs(found.value.0, Arguments((typed + rest)[found.value.1..]), arg.text, texts);
        }
      }
    }
    hide Split, Quoted, Quotable;
  }

  /** If the plain arguments are typed as such, the arguments come back exactly when all are renderable. */
  lemma {:induction false} FollowIsReadIff(args: seq<Typed>, trailing: nat)
    requires PlainAsTyped(args)
    ensures Arguments(FollowPieces(args, trailing)) == Ok(Texts(args)) <==> AllRenderable(args)
    decreases |args|
  {
    if args == [] {
      EmptiesAreSkipped(trailing, []);
      assert Empties(trailing) + [] == Empties(trailing);
    } else {
      var a, rest := args[0], FollowPieces(args[1..], trailing);
      var typed := Split(a.arg.AsTyped());
      assert FollowPieces(args, trailing) == Empties(a.more) + (typed + rest);
      EmptiesAreSkipped(a.more, typed + rest);
      FirstIsRead(a.arg, rest, Texts(args[1..]));
      FollowIsReadIff(args[1..], trailing);
      RenderableFirst(args);
      hide Split, Arguments, Empties, FollowPieces, AllRenderable;
    }
  }

  lemma RenderableFirst(args: seq<Typed>)
    requires args != []
    ensures AllRenderable(args) <==> args[0].arg.Renderable() && AllRenderable(args[1..])
  {
    assert args == [args[0]] + args[1..];
  }

  /** A command and its arguments, typed with any number of spaces between and after them, are read back
      as they are exactly when every text in quotes is quotable. */
  lemma RoundTripIff(command: string, args: seq<Typed>, trailing: nat)
    requires NoSpace(command) && PlainAsTyped(args)
    ensures Tokens(command + Follow(args, trailing)) == Ok([command] + Texts(args))
            <==> forall a :: a in args && a.arg.Quotation? ==> Quotable(a.arg.text)
  {
    SplitFollow(command, args, trailing);
    SplitWord(command);
    FollowIsReadIff(args, trailing);
    assert ([command] + FollowPieces(args, trailing))[1..] == FollowPieces(args, trailing);
    AfterIs(command, Arguments(FollowPieces(args, trailing)), command, Texts(args));
    hide Split, Follow, FollowPieces, Arguments, Quotable;
  }

  // ---------------------------------------------------------------- a line, character by character

  /** Where a quotation ends whose quote has been opened before this text: at the quote before a space or the
      end of the line, if what comes before is quotable. There is at most one such place. */
  predicate ClosesAt(text: string, c: nat) {
    c < |text| && text[c] == QUOTE && (c + 1 < |text| ==> text[c + 1] == SPACE) && Quotable(text[..c])
  }

  lemma NoLaterClose(text: string, c: nat, d: nat)
    requires ClosesAt(text, c) && c < d
    ensures !ClosesAt(text, d)
  {
    if d < |text| && c + 1 < d {
      assert text[..d][c] == QUOTE && text[..d][c + 1] == SPACE;
    }
  }

  lemma OneClose(text: string, c: nat, d: nat)
    requires ClosesAt(text, c) && ClosesAt(text, d)
    ensures c == d
  {
    if c != d {
      NoLaterClose(text, if c < d then c else d, if c < d then d else c);
    }
  }

  /** The arguments in a text: spaces are skipped, a word ends at a space, and a quotation ends where it
      closes; one that never closes is an error. */
  ghost function ReadArguments(s: string): Result
    decreases |s|
  {
    if s == "" then Ok([])
    else if s[0] == SPACE then ReadArguments(s[1..])
    else if s[0] != QUOTE then After(s[..WordEnd(s)], ReadBehind(s, WordEnd(s)))
    else if c: nat :| ClosesAt(s[1..], c) then After(s[1..][..c], ReadBehind(s, c + 2))
    else Error
  }

  /** The arguments behind the space at `p`, if there is one. */
  ghost function ReadBehind(s: string, p: nat): Result
    requires 0 < p <= |s|
    decreases |s|, 0
  {
    if p < |s| then ReadArguments(s[p + 1..]) else Ok([])
  }

  ghost function ReadLine(s: string): Result {
    var p := WordEnd(s);
    After(s[..p], if p < |s| then ReadArguments(s[p + 1..]) else Ok([]))
  }

  lemma {:induction false} PiecesHaveNoSpaces(s: string)
    ensures forall p :: p in Split(s) ==> NoSpace(p)
  {
    if s != "" {
      PiecesHaveNoSpaces(s[1..]);
      var rest := Split(s[1..]);
      assert rest[0] in rest && forall p :: p in rest[1..] ==> p in rest;
    }
  }

  lemma {:induction false} SplitOfJoin(pieces: seq<string>)
    requires pieces != [] && forall p :: p in pieces ==> NoSpace(p)
    ensures Split(Join(pieces)) == pieces
    decreases |pieces|
  {
    var first, rest := pieces[0], pieces[1..];
    assert first in pieces && forall p :: p in rest ==> p in pieces;
    SplitWord(first);
    hide Split, NoSpace;
    if rest != [] {
      SplitOfJoin(rest);
      SplitConcat(first, Join(rest));
      assert pieces == [first] + rest;
    }
  }

  lemma {:induction false} ClosingPrefix(pieces: seq<string>, k: nat)
    requires Closing(pieces) == Some(k)
    ensures k < |pieces| && Closing(pieces[..k + 1]) == Some(k) && EndsQuoted(pieces[k])
    decreases |pieces|
  {
    if k > 0 {
      ClosingPrefix(pieces[1..], k - 1);
      assert pieces[..k + 1][1..] == pieces[1..][..k];
    }
  }

  /** The text of the pieces of a closed quote. */
  lemma JoinedQuotes(first: seq<string>)
    requires first != [] && first[0] != "" && first[0][0] == QUOTE && EndsQuoted(first[|first| - 1])
    ensures var joined := Join(first); joined != "" && joined[0] == QUOTE && EndsQuoted(joined)
  {
    JoinEnds(first);
  }

  lemma {:induction false} JoinEnds(pieces: seq<string>)
    requires pieces != [] && pieces[|pieces| - 1] != ""
    ensures Join(pieces) != "" && Join(pieces)[|Join(pieces)| - 1] == pieces[|pieces| - 1][|pieces[|pieces| - 1]| - 1]
    ensures pieces[0] != "" ==> Join(pieces)[0] == pieces[0][0]
    decreases |pieces|
  {
    if |pieces| > 1 {
      JoinEnds(pieces[1..]);
    }
  }

  /** The pieces behind the end of a quotation. */
  function PiecesBehind(text: string, c: nat): seq<string>
    requires c < |text|
  {
    if c + 1 < |text| then Split(text[c + 2..]) else []
  }

  lemma SplitAtClose(text: string, c: nat)
    requires ClosesAt(text, c)
    ensures Split([QUOTE] + text) == Split(InQuotes(text[..c])) + PiecesBehind(text, c)
  {
    var quoted := InQuotes(text[..c]);
    if c + 1 < |text| {
      assert [QUOTE] + text == quoted + [SPACE] + text[c + 2..];
      SplitConcat(quoted, text[c + 2..]);
    } else {
      assert [QUOTE] + text == quoted && Split(quoted) + [] == Split(quoted);
    }
  }

  lemma ReadIfItCloses(text: string, c: nat)
    requires ClosesAt(text, c)
    ensures var (pieces, n) := (Split([QUOTE] + text), |Split(InQuotes(text[..c]))|);
            Quoted(pieces) == Some((text[..c], n)) && pieces[n..] == PiecesBehind(text, c)
  {
    SplitAtClose(text, c);
    QuotationIsRead(text[..c], PiecesBehind(text, c));
    hide Split, Quoted, Quotable;
  }

  /** The pieces up to the one that closes a quote are those of a quotation of a quotable text. */
  lemma ClosedPieces(s: string, k: nat)
    requires s != "" && s[0] == QUOTE && Closing(Split(s)) == Some(k) && |Join(Split(s)[..k + 1])| >= 2
    ensures var (pieces, joined) := (Split(s), Join(Split(s)[..k + 1]));
            var arg := joined[1..|joined| - 1];
            && joined == InQuotes(arg) && Quotable(arg)
            && s == joined + if k + 1 < |pieces| then [SPACE] + Join(pieces[k + 1..]) else ""
  {
    hide Split, Join, Closing, NoSpace, Clean, Quotable;
    var pieces := Split(s);
    var first, rest := pieces[..k + 1], pieces[k + 1..];
    ClosingPrefix(pieces, k);
    PiecesHaveNoSpaces(s);
    JoinOfSplit(s);
    FirstPieceOpens(s);
    assert pieces == first + rest && first[0] == pieces[0] && first[|first| - 1] == pieces[k];
    SplitOfJoin(first);
    JoinedQuotes(first);
    hide EndsQuoted;
    QuotesAround(Join(first));
    ClosedByLast(Join(first));
    CleanInQuotes(Join(first)[1..|Join(first)| - 1]);
    if rest != [] {
      JoinConcat(first, rest);
      assert Join(first) + [SPACE] + Join(rest) == Join(first) + ([SPACE] + Join(rest));
    } else {
      assert pieces == first && Join(first) + "" == Join(first);
    }
  }

  lemma QuotesAround(joined: string)
    requires |joined| >= 2 && joined[0] == QUOTE && EndsQuoted(joined)
    ensures joined == InQuotes(joined[1..|joined| - 1]) && joined != "" && joined[|joined| - 1] == QUOTE
  {
  }

  lemma FirstPieceOpens(s: string)
    requires s != "" && s[0] == QUOTE
    ensures Split(s)[0] != "" && Split(s)[0][0] == QUOTE
  {
    SplitFirst(s);
  }

  lemma ClosesBehind(text: string, arg: string, behind: string)
    requires Quotable(arg) && [QUOTE] + text == InQuotes(arg) + behind && (behind != "" ==> behind[0] == SPACE)
    ensures ClosesAt(text, |arg|)
  {
    hide Quotable;
    var s, c := [QUOTE] + text, |arg|;
    assert text == s[1..] && s[1..] == arg + [QUOTE] + behind;
    assert text[..c] == arg && text[c] == QUOTE && (c + 1 < |text| ==> text[c + 1] == behind[0]);
  }

  lemma QuotedIs(pieces: seq<string>)
    requires Quoted(pieces).Some?
    ensures Closing(pieces).Some? && |Join(pieces[..Closing(pieces).value + 1])| >= 2
    ensures var joined := Join(pieces[..Closing(pieces).value + 1]);
            Quoted(pieces).value.0 == joined[1..|joined| - 1]
  {
  }

  lemma ClosesIfItIsRead(text: string)
    ensures var found := Quoted(Split([QUOTE] + text)); found.Some? ==> ClosesAt(text, |found.value.0|)
  {
    hide *;
    var s := [QUOTE] + text;
    var pieces := Split(s);
    if Quoted(pieces).Some? {
      QuotedIs(pieces);
      var k := Closing(pieces).value;
      ClosedPieces(s, k);
      var arg := Quoted(pieces).value.0;
      var behind := if k + 1 < |pieces| then [SPACE] + Join(pieces[k + 1..]) else "";
      assert s == InQuotes(arg) + behind;
      ClosesBehind(text, arg, behind);
    }
  }

  /** An open quote, as the pieces are read and as the characters are: the same argument and the same text
      behind it, or an error in both. */
  lemma QuotationByCharacter(text: string)
    ensures Quoted(Split([QUOTE] + text)).Some? <==> exists c: nat :: ClosesAt(text, c)
    ensures forall c: nat :: ClosesAt(text, c) ==>
              var (pieces, n) := (Split([QUOTE] + text), |Split(InQuotes(text[..c]))|);
              Quoted(pieces) == Some((text[..c], n)) && pieces[n..] == PiecesBehind(text, c)
  {
    hide ClosesAt, Split, Quoted;
    forall c: nat | ClosesAt(text, c)
      ensures c < |text| &&
              var (pieces, n) := (Split([QUOTE] + text), |Split(InQuotes(text[..c]))|);
              Quoted(pieces) == Some((text[..c], n)) && pieces[n..] == PiecesBehind(text, c)
    {
      CloseIsIn(text, c);
      ReadIfItCloses(text, c);
    }
    ClosesIfItIsRead(text);
  }

  lemma CloseIsIn(text: string, c: nat)
    requires ClosesAt(text, c)
    ensures c < |text|
  {
  }

  /** The pieces that follow the first `n`. */
  lemma ArgumentsFirst(pieces: seq<string>)
    requires pieces != []
    ensures Arguments(pieces)
            == if pieces[0] == "" then Arguments(pieces[1..])
               else if pieces[0][0] != QUOTE then After(pieces[0], Arguments(pieces[1..]))
               else if Quoted(pieces).None? then Error
               else After(Quoted(pieces).value.0, Arguments(pieces[Quoted(pieces).value.1..]))
  {
    hide Quoted;
  }

  lemma ArgumentsOfNothing()
    ensures Arguments([]) == Ok([]) && Arguments([""]) == Ok([]) && Split("") == [""]
  {
    assert [""][1..] == [];
  }

  lemma ReadFirst(s: string)
    requires s != ""
    ensures s[0] == SPACE ==> ReadArguments(s) == ReadArguments(s[1..])
    ensures s[0] != SPACE && s[0] != QUOTE ==>
              WordEnd(s) > 0 && ReadArguments(s) == After(s[..WordEnd(s)], ReadBehind(s, WordEnd(s)))
    ensures s[0] == QUOTE ==>
              ((forall c: nat :: !ClosesAt(s[1..], c)) ==> ReadArguments(s) == Error)
    ensures s[0] == QUOTE ==> forall c: nat :: ClosesAt(s[1..], c) ==>
              c + 2 <= |s| && ReadArguments(s) == After(s[1..][..c], ReadBehind(s, c + 2))
  {
    hide Quotable;
    if s[0] == QUOTE {
      forall c: nat | ClosesAt(s[1..], c)
        ensures c + 2 <= |s| && ReadArguments(s) == After(s[1..][..c], ReadBehind(s, c + 2))
      {
        OnlyThere(s[1..], c);
      }
    }
  }

  lemma OnlyThere(text: string, c: nat)
    requires ClosesAt(text, c)
    ensures forall d: nat :: ClosesAt(text, d) ==> d == c
  {
    forall d: nat | ClosesAt(text, d) ensures d == c {
      OneClose(text, c, d);
    }
  }

  lemma WordByCharacter(s: string)
    requires s != "" && s[0] != SPACE && s[0] != QUOTE
    requires WordEnd(s) < |s| ==>
               Arguments(Split(s[WordEnd(s) + 1..])) == ReadArguments(s[WordEnd(s) + 1..])
    ensures Arguments(Split(s)) == ReadArguments(s)
  {
    var p := WordEnd(s);
    SplitAtWordEnd(s);
    ReadFirst(s);
    ArgumentsFirst(Split(s));
    ArgumentsOfNothing();
    assert s[..p][0] == s[0];
    hide Arguments, ReadArguments, Split, WordEnd;
    assert Split(s)[1..] == if p < |s| then Split(s[p + 1..]) else [];
  }

  lemma QuotationIsReadAlike(s: string, c: nat)
    requires s != "" && s[0] == QUOTE && ClosesAt(s[1..], c)
    requires c + 2 < |s| ==> Arguments(Split(s[c + 3..])) == ReadArguments(s[c + 3..])
    ensures Arguments(Split(s)) == ReadArguments(s)
  {
    CloseIsIn(s[1..], c);
    ReadFirst(s);
    assert [QUOTE] + s[1..] == s && (c + 2 < |s| ==> s[1..][c + 2..] == s[c + 3..]);
    FirstPieceOpens(s);
    ReadIfItCloses(s[1..], c);
    ArgumentsFirst(Split(s));
    ArgumentsOfNothing();
    hide Arguments, ReadArguments, Split, Quoted, ClosesAt;
  }

  lemma UnclosedByCharacter(s: string)
    requires s != "" && s[0] == QUOTE && forall c: nat :: !ClosesAt(s[1..], c)
    ensures Arguments(Split(s)) == ReadArguments(s) == Error
  {
    ReadFirst(s);
    assert [QUOTE] + s[1..] == s;
    FirstPieceOpens(s);
    QuotationByCharacter(s[1..]);
    ArgumentsFirst(Split(s));
    hide Arguments, ReadArguments, Split, Quoted, ClosesAt;
  }

  /** The arguments read piece by piece are those read character by character. */
  lemma {:induction false} ArgumentsByCharacter(s: string)
    ensures Arguments(Split(s)) == ReadArguments(s)
    decreases |s|
  {
    if s == "" {
      ArgumentsOfNothing();
    } else if s[0] == SPACE {
      ReadFirst(s);
      SplitFirst(s);
      ArgumentsFirst(Split(s));
      hide Arguments, ReadArguments, Split;
      assert ([""] + Split(s[1..]))[1..] == Split(s[1..]);
      ArgumentsByCharacter(s[1..]);
    } else if s[0] != QUOTE {
      if WordEnd(s) < |s| {
        ArgumentsByCharacter(s[WordEnd(s) + 1..]);
      }
      WordByCharacter(s);
    } else if c: nat :| ClosesAt(s[1..], c) {
      if c + 2 < |s| {
        ArgumentsByCharacter(s[c + 3..]);
      }
      QuotationIsReadAlike(s, c);
    } else {
      UnclosedByCharacter(s);
    }
  }

  /** Every line is read as its characters say: the command up to the first space, then words and quotations.
      It is refused exactly when an open quote never closes. */
  lemma LineByCharacter(input: string)
    ensures Tokens(input) == ReadLine(input)
  {
    var p := WordEnd(input);
    SplitAtWordEnd(input);
    ArgumentsOfNothing();
    hide Arguments, ReadArguments, Split, WordEnd;
    assert Split(input)[1..] == if p < |input| then Split(input[p + 1..]) else [];
    if p < |input| {
      ArgumentsByCharacter(input[p + 1..]);
    }
  }
}
