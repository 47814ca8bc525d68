/** Text fingerprints: the one-pass normalising loop and its word-level meaning. */
module Fingerprint {

  /** The character tables the loop consults, as parameters. */
  datatype CharTable = CharTable(isSpace: char -> bool, isAlnum: char -> bool, lower: char -> string)

  /**
   * What Unicode guarantees of the tables: a space is never alphanumeric, and lowercasing gives at least
   * one character, never a space, each one already in lower case.
   */
  ghost predicate Sane(ct: CharTable) {
    && ct.isSpace(' ')
    && (forall c :: ct.isAlnum(c) ==> !ct.isSpace(c) && ct.lower(c) != "")
    && (forall c, i :: ct.isAlnum(c) && 0 <= i < |ct.lower(c)| ==> Fixed(ct, ct.lower(c)[i]))
  }

  ghost predicate Fixed(ct: CharTable, d: char) { !ct.isSpace(d) && ct.lower(d) == [d] }

  // ------------------------------------------------- the word-level meaning

  /** Length of the leading run of non-spaces. */
  function Run(ct: CharTable, t: string): (n: nat)
    ensures n <= |t|
    ensures forall i :: 0 <= i < n ==> !ct.isSpace(t[i])
    ensures n < |t| ==> ct.isSpace(t[n])
  {
    if t == "" || ct.isSpace(t[0]) then 0 else 1 + Run(ct, t[1..])
  }

  /** Splits on white space. */
  function Tokens(ct: CharTable, t: string): seq<string> {
    if t == "" then []
    else if ct.isSpace(t[0]) then Tokens(ct, t[1..])
    else [t[..Run(ct, t)]] + Tokens(ct, t[Run(ct, t)..])
  }

  /** Deletes what is not alphanumeric and lowercases the rest. */
  function Clean(ct: CharTable, w: string): string {
    if w == "" then "" else (if ct.isAlnum(w[0]) then ct.lower(w[0]) else "") + Clean(ct, w[1..])
  }

  function CleanAll(ct: CharTable, ws: seq<string>): seq<string> {
    if ws == [] then []
    else (if Clean(ct, ws[0]) == "" then [] else [Clean(ct, ws[0])]) + CleanAll(ct, ws[1..])
  }

  function Words(ct: CharTable, t: string): seq<string> { CleanAll(ct, Tokens(ct, t)) }

  function Join(ws: seq<string>): string {
    if ws == [] then "" else if |ws| == 1 then ws[0] else ws[0] + " " + Join(ws[1..])
  }

  /** The normal form of a text: its words, separated by single spaces. */
  function Normal(ct: CharTable, t: string): string { Join(Words(ct, t)) }

  // ------------------------------------------------------ the one-pass loop

  function TrimEnd(ct: CharTable, s: string): string {
    if s != "" && ct.isSpace(s[|s| - 1]) then TrimEnd(ct, s[..|s| - 1]) else s
  }

  /** What the loop still appends when `rest` is left and the flag is `lastSpace`. */
  ghost function Emit(ct: CharTable, lastSpace: bool, rest: string): string
    decreases |rest|
  {
    if rest == "" then ""
    else if ct.isSpace(rest[0]) then (if lastSpace then "" else " ") + Emit(ct, true, rest[1..])
    else if ct.isAlnum(rest[0]) then ct.lower(rest[0]) + Emit(ct, false, rest[1..])
    else Emit(ct, lastSpace, rest[1..])
  }

  method Normalize(ct: CharTable, text: string) returns (trimmed: string)
    requires Sane(ct)
    ensures trimmed == Normal(ct, text)
  {
    var normalized, lastSpace := "", true;
    assert text[0..] == text;
    for i := 0 to |text|
      invariant normalized + Emit(ct, lastSpace, text[i..]) == Emit(ct, true, text)
    {
      var c := text[i];
      assert text[i..][1..] == text[i + 1..];
      if ct.isSpace(c) {
        if !lastSpace {
          normalized := normalized + " ";
          lastSpace := true;
        }
      } else if ct.isAlnum(c) {
        normalized := normalized + ct.lower(c);
        lastSpace := false;
      }
    }
    assert text[|text|..] == "" && normalized == Emit(ct, true, text);
    trimmed := TrimEnd(ct, normalized);
    EmitIsWords(ct, text);
    TrimIsNormal(ct, text);
  }

  lemma {:induction false} EmitRun(ct: CharTable, lastSpace: bool, t: string, n: nat)
    requires Sane(ct) && n <= |t| && forall i :: 0 <= i < n ==> !ct.isSpace(t[i])
    ensures Emit(ct, lastSpace, t) == Clean(ct, t[..n]) + Emit(ct, lastSpace && Clean(ct, t[..n]) == "", t[n..])
  {
    if n > 0 {
      var alnum := ct.isAlnum(t[0]);
      EmitRun(ct, lastSpace && !alnum, t[1..], n - 1);
      assert t[1..][..n - 1] == t[..n][1..];
      assert t[1..][n - 1..] == t[n..];
      assert Clean(ct, t[..n]) == (if alnum then ct.lower(t[0]) else "") + Clean(ct, t[..n][1..]);
      if alnum {
        assert Clean(ct, t[..n]) != "";
      }
    }
  }

  /** The loop writes the words with one separator after each, the last separator being optional. */
  lemma {:induction false} EmitIsWords(ct: CharTable, t: string)
    requires Sane(ct)
    ensures var e := Emit(ct, true, t); var n := Normal(ct, t); e == n || (n != "" && e == n + " ")
    decreases |t|
  {
    if t == "" {
    } else if ct.isSpace(t[0]) {
      EmitIsWords(ct, t[1..]);
    } else {
      var n := Run(ct, t);
      var w, rest := Clean(ct, t[..n]), t[n..];
      EmitRun(ct, true, t, n);
      FirstWord(ct, t);
      if w == "" {
        EmitIsWords(ct, rest);
        assert Words(ct, t) == Words(ct, rest);
      } else if rest == "" {
        assert Words(ct, t) == [w];
      } else {
        EmitIsWords(ct, rest[1..]);
        assert Emit(ct, false, rest) == " " + Emit(ct, true, rest[1..]);
        assert Words(ct, rest) == Words(ct, rest[1..]);
        assert Emit(ct, true, t) == w + " " + Emit(ct, true, rest[1..]);
        JoinFirst(ct, w, Tokens(ct, rest));
      }
    }
  }

  lemma FirstWord(ct: CharTable, t: string)
    requires t != "" && !ct.isSpace(t[0])
    ensures var w := Clean(ct, t[..Run(ct, t)]);
            Words(ct, t) == (if w == "" then [] else [w]) + Words(ct, t[Run(ct, t)..])
  {
    assert Tokens(ct, t) == [t[..Run(ct, t)]] + Tokens(ct, t[Run(ct, t)..]);
  }

  lemma JoinFirst(ct: CharTable, w: string, tokens: seq<string>)
    ensures var ws := CleanAll(ct, tokens);
            Join([w] + ws) == if Join(ws) == "" then w else w + " " + Join(ws)
  {
    WordsAreNonempty(ct, tokens);
    assert ([w] + CleanAll(ct, tokens))[1..] == CleanAll(ct, tokens);
  }

  lemma {:induction false} WordsAreNonempty(ct: CharTable, ws: seq<string>)
    ensures "" !in CleanAll(ct, ws)
    ensures Join(CleanAll(ct, ws)) == "" <==> CleanAll(ct, ws) == []
  {
    if ws != [] {
      WordsAreNonempty(ct, ws[1..]);
    }
  }

  lemma {:induction false} TrimIsNormal(ct: CharTable, t: string)
    requires Sane(ct)
    ensures TrimEnd(ct, Normal(ct, t)) == Normal(ct, t) == TrimEnd(ct, Normal(ct, t) + " ")
  {
    var n := Normal(ct, t);
    WordsAreSpaceless(ct, Tokens(ct, t));
    JoinEndsInWord(ct, Words(ct, t));
    assert (n + " ")[..|n|] == n;
  }

  // ------------------------------------------------------------ equal words

  ghost predicate Spaceless(ct: CharTable, w: string) { forall i :: 0 <= i < |w| ==> !ct.isSpace(w[i]) }

  ghost predicate AreWords(ct: CharTable, ws: seq<string>) {
    forall k :: 0 <= k < |ws| ==> ws[k] != "" && Spaceless(ct, ws[k])
  }

  lemma {:induction false} CleanIsFixed(ct: CharTable, w: string)
    requires Sane(ct)
    ensures forall i :: 0 <= i < |Clean(ct, w)| ==> Fixed(ct, Clean(ct, w)[i])
  {
    if w != "" {
      CleanIsFixed(ct, w[1..]);
    }
  }

  lemma {:induction false} WordsAreSpaceless(ct: CharTable, ws: seq<string>)
    requires Sane(ct)
    ensures AreWords(ct, CleanAll(ct, ws))
    ensures forall k, i :: 0 <= k < |CleanAll(ct, ws)| && 0 <= i < |CleanAll(ct, ws)[k]| ==> Fixed(ct, CleanAll(ct, ws)[k][i])
  {
    if ws != [] {
      WordsAreSpaceless(ct, ws[1..]);
      CleanIsFixed(ct, ws[0]);
    }
  }

  lemma {:induction false} JoinEndsInWord(ct: CharTable, ws: seq<string>)
    requires AreWords(ct, ws)
    ensures ws == [] ==> Join(ws) == ""
    ensures ws != [] ==> Join(ws) != "" && !ct.isSpace(Join(ws)[|Join(ws)| - 1])
  {
    if |ws| > 1 {
      JoinEndsInWord(ct, ws[1..]);
    }
  }

  lemma {:induction false} RunOfWord(ct: CharTable, w: string, rest: string)
    requires Spaceless(ct, w) && (rest == "" || ct.isSpace(rest[0]))
    ensures Run(ct, w + rest) == |w|
  {
    if w != "" {
      assert (w + rest)[1..] == w[1..] + rest;
      RunOfWord(ct, w[1..], rest);
    }
  }

  /** Splitting undoes joining. */
  lemma {:induction false} TokensOfJoin(ct: CharTable, ws: seq<string>)
    requires Sane(ct) && AreWords(ct, ws)
    ensures Tokens(ct, Join(ws)) == ws
  {
    if ws != [] {
      var w, j := ws[0], Join(ws);
      var rest := if |ws| == 1 then "" else " " + Join(ws[1..]);
      assert j == w + rest;
      RunOfWord(ct, w, rest);
      assert j[..|w|] == w && j[|w|..] == rest;
      assert !ct.isSpace(j[0]);
      if |ws| > 1 {
        TokensOfJoin(ct, ws[1..]);
        assert rest[1..] == Join(ws[1..]);
      }
      assert ws == [w] + ws[1..];
    }
  }

  /** Two texts have one normal form exactly when they say the same words. */
  lemma AgreeIffSameWords(ct: CharTable, a: string, b: string)
    requires Sane(ct)
    ensures Normal(ct, a) == Normal(ct, b) <==> Words(ct, a) == Words(ct, b)
  {
    WordsAreSpaceless(ct, Tokens(ct, a));
    WordsAreSpaceless(ct, Tokens(ct, b));
    TokensOfJoin(ct, Words(ct, a));
    TokensOfJoin(ct, Words(ct, b));
  }

  // ------------------------------------------------------------ idempotence

  ghost function Flatten(ws: seq<string>): string { if ws == [] then "" else ws[0] + Flatten(ws[1..]) }

  lemma FlattenCons(w: string, ws: seq<string>)
    ensures Flatten((if w == "" then [] else [w]) + ws) == w + Flatten(ws)
  {
    if w == "" {
      assert [] + ws == ws;
    } else {
      assert ([w] + ws)[1..] == ws;
    }
  }

  ghost predicate AllAlnum(ct: CharTable, w: string) { forall i :: 0 <= i < |w| ==> ct.isAlnum(w[i]) }

  /** Every letter and digit of the text lowercases to letters and digits only. */
  ghost predicate LowersCleanly(ct: CharTable, t: string) {
    forall i :: 0 <= i < |t| && ct.isAlnum(t[i]) ==> AllAlnum(ct, ct.lower(t[i]))
  }

  lemma {:induction false} CleanConcat(ct: CharTable, a: string, b: string)
    ensures Clean(ct, a + b) == Clean(ct, a) + Clean(ct, b)
  {
    if a == "" {
      assert a + b == b;
    } else {
      CleanConcat(ct, a[1..], b);
      assert (a + b)[1..] == a[1..] + b;
    }
  }

  /** No letter is lost or added by splitting. */
  lemma {:induction false} WordsFlatten(ct: CharTable, t: string)
    requires Sane(ct)
    ensures Flatten(Words(ct, t)) == Clean(ct, t)
    decreases |t|
  {
    if t == "" {
    } else if ct.isSpace(t[0]) {
      WordsFlatten(ct, t[1..]);
    } else {
      var n := Run(ct, t);
      WordsFlatten(ct, t[n..]);
      CleanConcat(ct, t[..n], t[n..]);
      assert t == t[..n] + t[n..];
      FirstWord(ct, t);
      FlattenCons(Clean(ct, t[..n]), Words(ct, t[n..]));
    }
  }

  lemma {:induction false} CleanAlnum(ct: CharTable, t: string)
    ensures AllAlnum(ct, Clean(ct, t)) <==> LowersCleanly(ct, t)
  {
    if t != "" {
      CleanAlnum(ct, t[1..]);
      var head, tail := if ct.isAlnum(t[0]) then ct.lower(t[0]) else "", Clean(ct, t[1..]);
      assert AllAlnum(ct, head + tail) <==> AllAlnum(ct, head) && AllAlnum(ct, tail) by {
        forall i | 0 <= i < |tail| && AllAlnum(ct, head + tail) ensures ct.isAlnum(tail[i]) {
          assert (head + tail)[|head| + i] == tail[i];
        }
        forall i | 0 <= i < |head| && AllAlnum(ct, head + tail) ensures ct.isAlnum(head[i]) {
          assert (head + tail)[i] == head[i];
        }
      }
      assert LowersCleanly(ct, t) <==> (ct.isAlnum(t[0]) ==> AllAlnum(ct, ct.lower(t[0]))) && LowersCleanly(ct, t[1..]) by {
        assert forall i :: 0 <= i < |t| - 1 ==> t[1..][i] == t[i + 1];
        assert forall i :: 1 <= i < |t| ==> t[i] == t[1..][i - 1];
      }
    }
  }

  /** On text already in lower case, cleaning only deletes. */
  lemma {:induction false} CleanOfFixed(ct: CharTable, w: string)
    requires forall i :: 0 <= i < |w| ==> Fixed(ct, w[i])
    ensures |Clean(ct, w)| <= |w|
    ensures Clean(ct, w) == w <==> AllAlnum(ct, w)
    ensures |Clean(ct, w)| == |w| <==> AllAlnum(ct, w)
  {
    if w != "" {
      CleanOfFixed(ct, w[1..]);
      assert w == [w[0]] + w[1..];
      assert AllAlnum(ct, w) <==> ct.isAlnum(w[0]) && AllAlnum(ct, w[1..]) by {
        assert forall i :: 0 <= i < |w| - 1 ==> w[1..][i] == w[i + 1];
        assert forall i :: 1 <= i < |w| ==> w[i] == w[1..][i - 1];
      }
    }
  }

  lemma {:induction false} CleanAllOfFixed(ct: CharTable, ws: seq<string>)
    requires "" !in ws
    requires forall k, i :: 0 <= k < |ws| && 0 <= i < |ws[k]| ==> Fixed(ct, ws[k][i])
    ensures |Flatten(CleanAll(ct, ws))| <= |Flatten(ws)|
    ensures CleanAll(ct, ws) == ws <==> AllAlnum(ct, Flatten(ws))
    ensures |Flatten(CleanAll(ct, ws))| == |Flatten(ws)| <==> AllAlnum(ct, Flatten(ws))
  {
    if ws != [] {
      var rest := ws[1..];
      CleanAllOfFixed(ct, rest);
      CleanOfFixed(ct, ws[0]);
      var f, g := ws[0], Flatten(rest);
      assert ws == [f] + rest;
      assert AllAlnum(ct, f + g) <==> AllAlnum(ct, f) && AllAlnum(ct, g) by {
        assert forall i :: 0 <= i < |g| ==> (f + g)[|f| + i] == g[i];
        assert forall i :: 0 <= i < |f| ==> (f + g)[i] == f[i];
      }
      FlattenCons(Clean(ct, f), CleanAll(ct, rest));
    }
  }

  /** Normalising twice changes nothing exactly when the text lowercases cleanly. */
  lemma IdempotentIff(ct: CharTable, t: string)
    requires Sane(ct)
    ensures Normal(ct, Normal(ct, t)) == Normal(ct, t) <==> LowersCleanly(ct, t)
  {
    var ws := Words(ct, t);
    WordsAreSpaceless(ct, Tokens(ct, t));
    TokensOfJoin(ct, ws);
    AgreeIffSameWords(ct, Normal(ct, t), t);
    assert "" !in ws;
    CleanAllOfFixed(ct, ws);
    WordsFlatten(ct, t);
    CleanAlnum(ct, t);
  }

  /**
   * A text whose normal form is not stable: a dotted capital I lowercases to an i and a combining dot,
   * and the dot is not alphanumeric, so a second pass deletes it.
   */
  lemma NotAlwaysIdempotent(ct: CharTable)
    requires Sane(ct)
    requires ct.isAlnum('\U{130}') && ct.lower('\U{130}') == ['i', '\U{307}'] && !ct.isAlnum('\U{307}')
    ensures Normal(ct, Normal(ct, ['\U{130}'])) != Normal(ct, ['\U{130}'])
  {
    IdempotentIff(ct, ['\U{130}']);
    assert !AllAlnum(ct, ct.lower('\U{130}')) by {
      assert ct.lower('\U{130}')[1] == '\U{307}';
    }
  }
}
