/** Token normalisation (app.py, `preprocess_text`): lower-case the text,
    tokenize it, keep the alphanumeric non-stopword tokens, lemmatize each one
    and join the results with single spaces. The tokenizer, the stopword list
    and the lemmatizer are NLTK's and are taken as parameters. */
module Normalize {

  /** The language resources `preprocess_text` relies on. */
  datatype Nlp = Nlp(
    tokenize: string -> seq<string>,
    stopwords: set<string>,
    lemmatize: string -> string)

  predicate IsAlnumChar(c: char)
  {
    'a' <= c <= 'z' || 'A' <= c <= 'Z' || '0' <= c <= '9'
  }

  /** `str.isalnum` over ASCII: false for the empty string. An alphanumeric
      token is a proper word: non-empty and without a space. */
  predicate IsAlnum(t: string)
    ensures IsAlnum(t) ==> IsWord(t)
  {
    |t| > 0 && forall i :: 0 <= i < |t| ==> IsAlnumChar(t[i])
  }

  predicate IsUpper(c: char)
  {
    'A' <= c <= 'Z'
  }

  function LowerChar(c: char): char
  {
    if IsUpper(c) then (c as int + ('a' as int - 'A' as int)) as char else c
  }

  /** `str.lower` over ASCII: the length is kept, no upper-case letter is
      left, and no character changes whether it is alphanumeric. */
  function Lower(s: string): (r: string)
    ensures |r| == |s|
    ensures forall i :: 0 <= i < |r| ==> !IsUpper(r[i])
    ensures forall i :: 0 <= i < |r| ==> IsAlnumChar(r[i]) == IsAlnumChar(s[i])
  {
    seq(|s|, i requires 0 <= i < |s| => LowerChar(s[i]))
  }

  /** Lower-casing turns each upper-case letter into its lower-case
      letter, changes no other character, and a second application changes
      nothing. */
  lemma LowerProperties(s: string)
    ensures |Lower(s)| == |s|
    ensures forall i :: 0 <= i < |s| && IsUpper(s[i]) ==>
              Lower(s)[i] == (s[i] as int + ('a' as int - 'A' as int)) as char
    ensures forall i :: 0 <= i < |s| && !IsUpper(s[i]) ==> Lower(s)[i] == s[i]
    ensures Lower(Lower(s)) == Lower(s)
  {
  }

  /** The filter condition of the comprehension. */
  predicate Passes(nlp: Nlp, token: string)
  {
    IsAlnum(token) && token !in nlp.stopwords
  }

  /** The tokens that survive the filter, in their original order. */
  function Keep(nlp: Nlp, tokens: seq<string>): (kept: seq<string>)
    ensures |kept| <= |tokens|
    ensures forall t :: t in kept ==> t in tokens && Passes(nlp, t)
  {
    if tokens == [] then []
    else if Passes(nlp, tokens[0]) then [tokens[0]] + Keep(nlp, tokens[1..])
    else Keep(nlp, tokens[1..])
  }

  /** The tokens that reach the lemmatizer for a given input text. */
  function KeptTokens(nlp: Nlp, text: string): seq<string>
  {
    Keep(nlp, nlp.tokenize(Lower(text)))
  }

  function Lemmatized(nlp: Nlp, tokens: seq<string>): seq<string>
  {
    seq(|tokens|, i requires 0 <= i < |tokens| => nlp.lemmatize(tokens[i]))
  }

  /** Python's `" ".join(words)`. It is "" exactly for no words or one
      empty word, and every character it holds is a space or a character of
      one of the words. */
  function Join(words: seq<string>): (r: string)
    ensures r == "" <==> words == [] || words == [""]
    ensures forall c :: c in r ==> c == ' ' || exists i :: 0 <= i < |words| && c in words[i]
  {
    if words == [] then ""
    else if |words| == 1 then words[0]
    else
      var rest := Join(words[1..]);
      assert forall c :: c in rest && c != ' ' ==> exists i :: 0 <= i < |words| && c in words[i] by {
        forall c | c in rest && c != ' '
          ensures exists i :: 0 <= i < |words| && c in words[i]
        {
          var j :| 0 <= j < |words[1..]| && c in words[1..][j];
          assert c in words[j + 1];
        }
      }
      words[0] + " " + rest
  }

  /** `preprocess_text`. The output is "" when no token survives the
      filter, and, when the lemmatizer never returns "", only then. */
  function Preprocess(nlp: Nlp, text: string): (r: string)
    ensures KeptTokens(nlp, text) == [] ==> r == ""
    ensures (forall t :: nlp.lemmatize(t) != "") ==> (r == "" <==> KeptTokens(nlp, text) == [])
  {
    var kept := KeptTokens(nlp, text);
    var lemmas := Lemmatized(nlp, kept);
    assert |lemmas| == |kept| && forall i :: 0 <= i < |kept| ==> lemmas[i] == nlp.lemmatize(kept[i]);
    assert lemmas == [""] ==> nlp.lemmatize(kept[0]) == "";
    Join(lemmas)
  }

  /** Python's `s.split(" ")`: the pieces between single spaces. */
  function Split(s: string): (pieces: seq<string>)
    ensures |pieces| >= 1
  {
    if s == "" then [""]
    else if s[0] == ' ' then [""] + Split(s[1..])
    else var rest := Split(s[1..]); [[s[0]] + rest[0]] + rest[1..]
  }

  /** The words of a normalised text; the empty text has none. */
  function Words(s: string): seq<string>
  {
    if s == "" then [] else Split(s)
  }

  predicate IsWord(w: string)
  {
    w != "" && ' ' !in w
  }

  // ---- the filter ---------------------------------------------------------

  /** Every token that passes the filter is kept. */
  lemma {:induction false} KeepComplete(nlp: Nlp, tokens: seq<string>, t: string)
    requires t in tokens && Passes(nlp, t)
    ensures t in Keep(nlp, tokens)
  {
    if tokens[0] != t {
      KeepComplete(nlp, tokens[1..], t);
    }
  }

  /** Filtering commutes with concatenation, so relative order is kept. */
  lemma {:induction false} KeepAppend(nlp: Nlp, a: seq<string>, b: seq<string>)
    ensures Keep(nlp, a + b) == Keep(nlp, a) + Keep(nlp, b)
  {
    if a == [] {
      assert a + b == b;
    } else {
      assert (a + b)[1..] == a[1..] + b;
      KeepAppend(nlp, a[1..], b);
    }
  }

  /** Filtering a second time removes nothing. */
  lemma {:induction false} KeepIdempotent(nlp: Nlp, tokens: seq<string>)
    ensures Keep(nlp, Keep(nlp, tokens)) == Keep(nlp, tokens)
  {
    if tokens != [] {
      KeepIdempotent(nlp, tokens[1..]);
    }
  }

  /** No token reaches the lemmatizer unless it is non-empty, alphanumeric
      and not a stopword, and each one that is does. */
  lemma LemmatizerInput(nlp: Nlp, text: string)
    ensures forall t :: t in KeptTokens(nlp, text) ==>
              |t| > 0 && IsAlnum(t) && t !in nlp.stopwords
    ensures forall t :: t in nlp.tokenize(Lower(text)) && Passes(nlp, t) ==>
              t in KeptTokens(nlp, text)
  {
    forall t | t in nlp.tokenize(Lower(text)) && Passes(nlp, t)
      ensures t in KeptTokens(nlp, text)
    {
      KeepComplete(nlp, nlp.tokenize(Lower(text)), t);
    }
  }

  // ---- the join -----------------------------------------------------------

  lemma {:induction false} SplitWordPrefix(w: string, rest: string)
    requires ' ' !in w
    ensures Split(w + rest) == [w + Split(rest)[0]] + Split(rest)[1..]
  {
    var tail := Split(rest);
    if w == "" {
      assert w + rest == rest;
      assert w + tail[0] == tail[0];
      assert [tail[0]] + tail[1..] == tail;
    } else {
      assert (w + rest)[0] == w[0];
      assert (w + rest)[1..] == w[1..] + rest;
      SplitWordPrefix(w[1..], rest);
      var r := Split(w[1..] + rest);
      assert r[0] == w[1..] + tail[0];
      assert r[1..] == tail[1..];
      assert [w[0]] + r[0] == w + tail[0];
    }
  }

  /** Splitting a join of proper words on spaces gives the words back. */
  lemma {:induction false} JoinSplit(words: seq<string>)
    requires |words| > 0
    requires forall i :: 0 <= i < |words| ==> IsWord(words[i])
    ensures Split(Join(words)) == words
  {
    if |words| == 1 {
      SplitWordPrefix(words[0], "");
      assert words[0] + "" == words[0];
    } else {
      var rest := Join(words[1..]);
      assert Join(words) == words[0] + (" " + rest);
      SplitWordPrefix(words[0], " " + rest);
      assert (" " + rest)[1..] == rest;
      JoinSplit(words[1..]);
      var after := Split(" " + rest);
      assert after == [""] + words[1..];
      assert after[0] == "" && after[1..] == words[1..];
      assert words[0] + after[0] == words[0];
      assert Split(Join(words)) == [words[0]] + words[1..];
      assert [words[0]] + words[1..] == words;
    }
  }

  /** Round trip: the words of a join of proper words are those words. */
  lemma JoinWords(words: seq<string>)
    requires forall i :: 0 <= i < |words| ==> IsWord(words[i])
    ensures Words(Join(words)) == words
  {
    if words != [] {
      JoinSplit(words);
      if |words| > 1 {
        assert Join(words) == words[0] + " " + Join(words[1..]);
      }
    }
  }

  // ---- preprocess_text ----------------------------------------------------

  /** When every lemma is a proper word, the output's words are exactly the
      lemmas of the kept tokens, one per token and in token order. */
  lemma PreprocessWords(nlp: Nlp, text: string)
    requires forall t :: t in KeptTokens(nlp, text) ==> IsWord(nlp.lemmatize(t))
    ensures var words := Words(Preprocess(nlp, text));
            var kept := KeptTokens(nlp, text);
            |words| == |kept| &&
            forall i :: 0 <= i < |kept| ==> words[i] == nlp.lemmatize(kept[i])
  {
    var kept := KeptTokens(nlp, text);
    var lemmas := Lemmatized(nlp, kept);
    forall i | 0 <= i < |lemmas|
      ensures IsWord(lemmas[i])
    {
      assert kept[i] in kept;
    }
    JoinWords(lemmas);
  }
}
