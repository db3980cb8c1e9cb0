/**
 * parse_append_metadata: reading "VAR1=VAL1 VAR2=VAL2" into a keyword map
 * that may already hold entries.
 *
 * The text is cut into white-space separated tokens. In each token every
 * '=' becomes a space, and the first two words of the result are the name
 * and the value (further words are ignored). A token with fewer than two
 * words stops the parse with an error that quotes the token as rewritten;
 * the entries of the tokens before it have already been written.
 */
module Metadata {
  import opened Wrappers
  import opened ArgErrors
  import opened Text
  import opened Seqs

  /** The keyword map as the parse leaves it, and the error that stopped it, if any. */
  datatype Appended = Appended(keywords: map<string, string>, error: Option<ArgError>)

  // ---------------------------------------------------------------------
  // Specification
  // ---------------------------------------------------------------------

  /** A token with each '=' turned into a space. */
  function Rewritten(token: string): string {
    ReplaceChar(token, '=', ' ')
  }

  /** The words a token's rewritten form yields. */
  function Fields(token: string): seq<string> {
    Words(Rewritten(token), IsSpace)
  }

  predicate Parsable(token: string) {
    |Fields(token)| >= 2
  }

  function Name(token: string): string
    requires Parsable(token)
  {
    Fields(token)[0]
  }

  function Value(token: string): string
    requires Parsable(token)
  {
    Fields(token)[1]
  }

  /** The tokens, in order, applied to kw as the loop applies them. */
  function AppendTokens(tokens: seq<string>, kw: map<string, string>): (a: Appended)
    ensures kw.Keys <= a.keywords.Keys
    ensures a.error == None <==> forall i :: 0 <= i < |tokens| ==> Parsable(tokens[i])
    ensures a.error.Some? ==> a.error.value.CouldNotParse?
    decreases |tokens|
  {
    if tokens == [] then Appended(kw, None)
    else if !Parsable(tokens[0]) then Appended(kw, Some(CouldNotParse(Rewritten(tokens[0]))))
    else
      var rest := tokens[1..];
      assert forall i :: 0 <= i < |rest| ==> rest[i] == tokens[i + 1];
      AppendTokens(rest, kw[Name(tokens[0]) := Value(tokens[0])])
  }

  /**
   * What parse_append_metadata leaves in the map, and what it throws. No
   * entry already in the map is removed; the parse fails exactly when
   * some word of the text has fewer than two fields, and then always with
   * CouldNotParse.
   */
  function AppendMetadata(metadata: string, kw: map<string, string>): (a: Appended)
    ensures kw.Keys <= a.keywords.Keys
    ensures var words := Words(metadata, IsSpace);
      && (a.error == None <==> forall i :: 0 <= i < |words| ==> Parsable(words[i]))
      && (a.error.Some? ==> a.error.value.CouldNotParse?)
  {
    AppendTokens(Words(metadata, IsSpace), kw)
  }

  // ---------------------------------------------------------------------
  // The operation
  // ---------------------------------------------------------------------

  /**
   * parse_append_metadata. The caller's map is passed in and its new value
   * returned, together with the error, if one was thrown.
   */
  method ParseAppendMetadata(metadata: string, keywords: map<string, string>)
    returns (kw: map<string, string>, err: Option<ArgError>)
    ensures Appended(kw, err) == AppendMetadata(metadata, keywords)
  {
    var tokens := Words(metadata, IsSpace);
    kw := keywords;
    for i := 0 to |tokens|
      invariant AppendTokens(tokens[i..], kw) == AppendTokens(tokens, keywords)
    {
      assert tokens[i..][1..] == tokens[i + 1..];
      var meta := ReplaceChar(tokens[i], '=', ' ');
      var fields := Words(meta, IsSpace);
      if |fields| < 2 {
        return kw, Some(CouldNotParse(meta));
      }
      kw := kw[fields[0] := fields[1]];
    }
    return kw, None;
  }

  // ---------------------------------------------------------------------
  // An independent account: the assignments of the parsable prefix
  // ---------------------------------------------------------------------

  predicate AllParsable(tokens: seq<string>) {
    forall i :: 0 <= i < |tokens| ==> Parsable(tokens[i])
  }

  /** The (name, value) pair each token assigns. */
  function Assignments(tokens: seq<string>): (ps: seq<(string, string)>)
    requires AllParsable(tokens)
    ensures |ps| == |tokens|
    ensures forall i :: 0 <= i < |tokens| ==> ps[i] == (Name(tokens[i]), Value(tokens[i]))
  {
    seq(|tokens|, i requires 0 <= i < |tokens| => (Name(tokens[i]), Value(tokens[i])))
  }

  /** kw with the pairs inserted in order, the last one last. */
  function Insert(pairs: seq<(string, string)>, kw: map<string, string>): map<string, string>
    decreases |pairs|
  {
    if pairs == [] then kw
    else
      var last := pairs[|pairs| - 1];
      Insert(pairs[..|pairs| - 1], kw)[last.0 := last.1]
  }

  /** kw with the assignments of tokens made one after the other. */
  function Assigned(tokens: seq<string>, kw: map<string, string>): map<string, string>
    requires AllParsable(tokens)
  {
    Insert(Assignments(tokens), kw)
  }

  /** Whether a pair assigns key. */
  function Assigns(key: string): ((string, string)) -> bool {
    (pair: (string, string)) => pair.0 == key
  }

  /** The index of the last token that names key, or -1. */
  function LastNaming(tokens: seq<string>, key: string): (j: int)
    requires AllParsable(tokens)
    ensures -1 <= j < |tokens|
    ensures j >= 0 ==> Name(tokens[j]) == key
    ensures forall i :: j < i < |tokens| ==> Name(tokens[i]) != key
  {
    var ps := Assignments(tokens);
    var j := LastWhere(ps, Assigns(key));
    assert forall i :: j < i < |tokens| ==> !Assigns(key)(ps[i]);
    j
  }

  // ---------------------------------------------------------------------
  // Properties
  // ---------------------------------------------------------------------

  /** Inserting the first pair and then the rest is the same as inserting them all. */
  lemma {:induction false} InsertFront(pairs: seq<(string, string)>, kw: map<string, string>)
    requires pairs != []
    ensures Insert(pairs, kw) == Insert(pairs[1..], kw[pairs[0].0 := pairs[0].1])
    decreases |pairs|
  {
    var n := |pairs|;
    var kw' := kw[pairs[0].0 := pairs[0].1];
    if n > 1 {
      var init, last := pairs[..n - 1], pairs[n - 1];
      assert init[0] == pairs[0];
      InsertFront(init, kw);
      assert init[1..] == pairs[1..][..n - 2];
      assert pairs[1..][n - 2] == last;
    } else {
      assert pairs[1..] == [];
      assert pairs[..0] == [];
    }
  }

  /**
   * The parse stops at the first token that does not parse, reporting it
   * as rewritten; the map then holds the assignments of every token before
   * it. When every token parses there is no error.
   */
  lemma {:induction false} StopsAtFirstBadToken(tokens: seq<string>, kw: map<string, string>)
    ensures var i := FirstBadToken(tokens);
      && AllParsable(tokens[..i])
      && AppendTokens(tokens, kw).keywords == Assigned(tokens[..i], kw)
      && AppendTokens(tokens, kw).error == if i < |tokens| then Some(CouldNotParse(Rewritten(tokens[i]))) else None
    decreases |tokens|
  {
    var i := FirstBadToken(tokens);
    ParsablePrefix(tokens, i);
    if tokens != [] && Parsable(tokens[0]) {
      var tail := tokens[1..];
      var kw' := kw[Name(tokens[0]) := Value(tokens[0])];
      var k := FirstBadToken(tail);
      assert i == k + 1;
      StopsAtFirstBadToken(tail, kw');
      assert AppendTokens(tokens, kw) == AppendTokens(tail, kw');
      TailPrefix(tokens, k);
      AssignedFront(tokens, i, kw);
      assert i < |tokens| ==> tokens[i] == tail[k];
    } else {
      assert tokens[..i] == [];
    }
  }

  lemma TailPrefix(tokens: seq<string>, k: nat)
    requires k < |tokens|
    ensures tokens[1..][..k] == tokens[1..k + 1]
  {
  }

  /** Assigning a parsable prefix is assigning its first token, then the rest. */
  lemma AssignedFront(tokens: seq<string>, i: nat, kw: map<string, string>)
    requires 0 < i <= |tokens| && AllParsable(tokens[..i])
    ensures AllParsable(tokens[1..i])
    ensures Assigned(tokens[..i], kw) == Assigned(tokens[1..i], kw[Name(tokens[0]) := Value(tokens[0])])
  {
    var pre := tokens[..i];
    assert pre[1..] == tokens[1..i];
    var ps := Assignments(pre);
    assert ps[0] == (Name(tokens[0]), Value(tokens[0]));
    assert ps[1..] == Assignments(tokens[1..i]);
    InsertFront(ps, kw);
  }

  /** The tokens before the first bad one are all parsable. */
  lemma ParsablePrefix(tokens: seq<string>, i: nat)
    requires i <= |tokens|
    requires forall j :: 0 <= j < i ==> Parsable(tokens[j])
    ensures AllParsable(tokens[..i])
  {
    var pre := tokens[..i];
    forall j | 0 <= j < |pre| ensures Parsable(pre[j]) {
      assert pre[j] == tokens[j];
    }
  }

  /** The index of the first token that does not parse, or |tokens|. */
  function FirstBadToken(tokens: seq<string>): nat {
    FirstFailure(tokens, Parsable)
  }

  /**
   * Last writer wins: after the insertions, a key some pair assigns holds
   * the value of the last such pair; any other key is as it was.
   */
  lemma {:induction false} LastInsertWins(pairs: seq<(string, string)>, kw: map<string, string>, key: string)
    ensures var r := Insert(pairs, kw);
      var j := LastWhere(pairs, Assigns(key));
      && (j >= 0 ==> key in r && r[key] == pairs[j].1)
      && (j < 0 ==> (key in r <==> key in kw) && (key in kw ==> r[key] == kw[key]))
    decreases |pairs|
  {
    if pairs != [] {
      LastInsertWins(pairs[..|pairs| - 1], kw, key);
    }
  }

  /**
   * Last writer wins for the tokens: a key some token names holds the
   * value of the last such token; any other key is as it was.
   */
  lemma LastWriterWins(tokens: seq<string>, kw: map<string, string>, key: string)
    requires AllParsable(tokens)
    ensures var r := Assigned(tokens, kw);
      var j := LastNaming(tokens, key);
      && (j >= 0 ==> key in r && r[key] == Value(tokens[j]))
      && (j < 0 ==> (key in r <==> key in kw) && (key in kw ==> r[key] == kw[key]))
  {
    LastInsertWins(Assignments(tokens), kw, key);
  }

  // ---------------------------------------------------------------------
  // Rendering a list of assignments and parsing it back
  // ---------------------------------------------------------------------

  /** A name or value the syntax can carry: non-empty, no '=' and no white space. */
  predicate Plain(s: string) {
    s != [] && Lacks(s, '=') && NoneIn(s, IsSpace)
  }

  /** "name=value". */
  function Token(name: string, value: string): string {
    name + "=" + value
  }

  function Tokens(pairs: seq<(string, string)>): (ts: seq<string>)
    ensures |ts| == |pairs|
    ensures forall i :: 0 <= i < |pairs| ==> ts[i] == Token(pairs[i].0, pairs[i].1)
  {
    seq(|pairs|, i requires 0 <= i < |pairs| => Token(pairs[i].0, pairs[i].1))
  }

  /** The assignments rendered as "VAR1=VAL1 VAR2=VAL2 ...". */
  function Render(pairs: seq<(string, string)>): string {
    Join(Tokens(pairs), " ")
  }

  /** A rendered assignment parses back into its name and value. */
  lemma TokenFields(name: string, value: string)
    requires Plain(name) && Plain(value)
    ensures Parsable(Token(name, value))
    ensures Name(Token(name, value)) == name && Value(Token(name, value)) == value
  {
    var t := Token(name, value);
    assert Rewritten(t) == name + " " + value by {
      var r := Rewritten(t);
      assert |r| == |name + " " + value|;
      forall i | 0 <= i < |r| ensures r[i] == (name + " " + value)[i] {
        if i < |name| {
          assert t[i] == name[i];
        } else if i > |name| {
          assert t[i] == value[i - |name| - 1];
        }
      }
    }
    assert Join([name, value], " ") == name + " " + value;
    WordsJoin([name, value], " ", IsSpace);
  }

  /** A rendered assignment is one non-empty word. */
  lemma TokenIsWord(name: string, value: string)
    requires Plain(name) && Plain(value)
    ensures Token(name, value) != [] && NoneIn(Token(name, value), IsSpace)
  {
    var t := Token(name, value);
    forall i | 0 <= i < |t| ensures !IsSpace(t[i]) {
      if i < |name| {
        assert t[i] == name[i];
      } else if i > |name| {
        assert t[i] == value[i - |name| - 1];
      }
    }
  }

  lemma {:induction false} TokensAllParsable(pairs: seq<(string, string)>)
    requires forall i :: 0 <= i < |pairs| ==> Plain(pairs[i].0) && Plain(pairs[i].1)
    ensures AllParsable(Tokens(pairs))
  {
    forall i | 0 <= i < |pairs| ensures Parsable(Tokens(pairs)[i]) {
      TokenFields(pairs[i].0, pairs[i].1);
    }
  }

  /** Assigning the rendered tokens is inserting the pairs. */
  lemma AssignedTokens(pairs: seq<(string, string)>, kw: map<string, string>)
    requires forall i :: 0 <= i < |pairs| ==> Plain(pairs[i].0) && Plain(pairs[i].1)
    ensures AllParsable(Tokens(pairs))
    ensures Assigned(Tokens(pairs), kw) == Insert(pairs, kw)
  {
    TokensAllParsable(pairs);
    var ps := Assignments(Tokens(pairs));
    forall i | 0 <= i < |pairs| ensures ps[i] == pairs[i] {
      TokenFields(pairs[i].0, pairs[i].1);
    }
    assert ps == pairs;
  }

  /**
   * Round trip: rendering assignments of plain names and values and
   * parsing the text inserts exactly those assignments, in order, with no
   * error.
   */
  lemma RenderParses(pairs: seq<(string, string)>, kw: map<string, string>)
    requires forall i :: 0 <= i < |pairs| ==> Plain(pairs[i].0) && Plain(pairs[i].1)
    ensures AppendMetadata(Render(pairs), kw) == Appended(Insert(pairs, kw), None)
  {
    var ts := Tokens(pairs);
    assert Words(Render(pairs), IsSpace) == ts by {
      forall k | 0 <= k < |ts| ensures ts[k] != [] && NoneIn(ts[k], IsSpace) {
        TokenIsWord(pairs[k].0, pairs[k].1);
      }
      WordsJoin(ts, " ", IsSpace);
    }
    AssignedTokens(pairs, kw);
    NoBadToken(ts, kw);
  }

  /** When every token parses, the parse makes all their assignments and reports nothing. */
  lemma NoBadToken(tokens: seq<string>, kw: map<string, string>)
    requires AllParsable(tokens)
    ensures AppendTokens(tokens, kw) == Appended(Assigned(tokens, kw), None)
  {
    StopsAtFirstBadToken(tokens, kw);
    var i := FirstBadToken(tokens);
    assert i == |tokens|;
    assert tokens[..i] == tokens;
  }
}
