/**
 The parser: the regular expression `\{(alt(/alt)*)\}` scanned with `findall`
 over the cost text, and each matched body turned into the set of its
 alternatives (`list(set(body.split('/')))`).
 */
module Parser {
  import opened Wrappers
  import opened Tokens

  /** One bracketed symbol: its alternatives, duplicates collapsed, in no order. */
  type Group = set<Token>

  /** A parsed cost: its groups in text order. */
  type Cost = seq<Group>

  /** What every parsed cost satisfies: no group is empty. */
  predicate WellFormed(cost: Cost)
  {
    forall i :: 0 <= i < |cost| ==> cost[i] != {}
  }

  /** `str.split('/')`: the maximal separator-free pieces, always at least one. */
  function Split(s: string): (r: seq<string>)
    ensures |r| >= 1
    ensures forall i :: 0 <= i < |r| ==> '/' !in r[i]
    decreases |s|
  {
    if |s| == 0 then [""]
    else if s[0] == '/' then [""] + Split(s[1..])
    else
      var rest := Split(s[1..]);
      [[s[0]] + rest[0]] + rest[1..]
  }

  /** `'/'.join(pieces)`. */
  function Join(pieces: seq<string>): string
    requires |pieces| >= 1
    decreases |pieces|
  {
    if |pieces| == 1 then pieces[0] else pieces[0] + "/" + Join(pieces[1..])
  }

  /** Joining the pieces of a split gives the text back. */
  lemma {:induction false} JoinSplit(s: string)
    ensures Join(Split(s)) == s
    decreases |s|
  {
    if |s| == 0 {
    } else if s[0] == '/' {
      JoinSplit(s[1..]);
      assert Split(s)[1..] == Split(s[1..]);
    } else {
      var rest := Split(s[1..]);
      JoinSplit(s[1..]);
      if |rest| == 1 {
        assert Join(Split(s)) == [s[0]] + rest[0];
      } else {
        assert Split(s)[1..] == rest[1..];
        assert Join(Split(s)) == [s[0]] + (rest[0] + "/" + Join(rest[1..]));
      }
    }
  }

  lemma {:induction false} SplitPlain(a: string)
    requires '/' !in a
    ensures Split(a) == [a]
    decreases |a|
  {
    if |a| > 0 {
      assert a[0] in a;
      SplitPlain(a[1..]);
      assert [a[0]] + a[1..] == a;
    }
  }

  lemma {:induction false} SplitAfterPiece(a: string, t: string)
    requires '/' !in a
    ensures Split(a + "/" + t) == [a] + Split(t)
    decreases |a|
  {
    var s := a + "/" + t;
    if |a| == 0 {
      assert s == "/" + t;
      assert s[1..] == t;
    } else {
      assert a[0] in a;
      assert s[0] == a[0];
      assert s[1..] == a[1..] + "/" + t;
      SplitAfterPiece(a[1..], t);
      assert [a[0]] + a[1..] == a;
    }
  }

  /** Splitting alternatives joined by '/' gives them back. */
  lemma {:induction false} SplitJoin(pieces: seq<string>)
    requires |pieces| >= 1
    requires forall i :: 0 <= i < |pieces| ==> '/' !in pieces[i]
    ensures Split(Join(pieces)) == pieces
    decreases |pieces|
  {
    if |pieces| == 1 {
      SplitPlain(pieces[0]);
    } else {
      SplitJoin(pieces[1..]);
      SplitAfterPiece(pieces[0], Join(pieces[1..]));
      assert [pieces[0]] + pieces[1..] == pieces;
    }
  }

  lemma {:induction false} JoinAvoids(pieces: seq<string>, ch: char)
    requires |pieces| >= 1
    requires ch != '/'
    requires forall i :: 0 <= i < |pieces| ==> ch !in pieces[i]
    ensures ch !in Join(pieces)
    decreases |pieces|
  {
    if |pieces| > 1 {
      JoinAvoids(pieces[1..], ch);
    }
  }

  /** The body between the braces of a group, as the parser checks it: every
      piece of `split('/')` is an alternative. */
  predicate IsBody(body: string)
  {
    forall p :: p in Split(body) ==> IsAlt(p)
  }

  /** The pattern `alt(/alt)*` read directly: alternatives joined by '/'. */
  ghost predicate GroupRegex(body: string)
  {
    exists alts: seq<string> ::
      && |alts| >= 1
      && (forall i :: 0 <= i < |alts| ==> IsAlt(alts[i]))
      && Join(alts) == body
  }

  /** The parser's check of a body accepts exactly the language of the pattern. */
  lemma BodyIsGroupRegex(body: string)
    ensures IsBody(body) <==> GroupRegex(body)
  {
    if IsBody(body) {
      JoinSplit(body);
      var alts := Split(body);
      assert forall i :: 0 <= i < |alts| ==> IsAlt(alts[i]) by {
        forall i | 0 <= i < |alts| ensures IsAlt(alts[i]) {
          assert alts[i] in alts;
        }
      }
    }
    if GroupRegex(body) {
      var alts: seq<string> :| |alts| >= 1 && (forall i :: 0 <= i < |alts| ==> IsAlt(alts[i])) && Join(alts) == body;
      forall i | 0 <= i < |alts| ensures '/' !in alts[i] {
        AltHasNoDelimiter(alts[i]);
      }
      SplitJoin(alts);
    }
  }

  /** A group body never contains the closing brace, so a match always ends
      at the first '}' after its opening brace. */
  lemma BodyHasNoBrace(body: string)
    requires IsBody(body)
    ensures '}' !in body
  {
    JoinSplit(body);
    var pieces := Split(body);
    forall i | 0 <= i < |pieces| ensures '}' !in pieces[i] {
      assert pieces[i] in pieces;
      AltHasNoDelimiter(pieces[i]);
    }
    JoinAvoids(pieces, '}');
  }

  /** The index of the first '}' at or after `from`, if there is one. */
  function CloseIndex(s: string, from: nat): (r: Option<nat>)
    requires from <= |s|
    ensures r.Some? ==> from <= r.value < |s| && s[r.value] == '}'
    ensures r.Some? ==> forall j :: from <= j < r.value ==> s[j] != '}'
    ensures r.None? ==> forall j :: from <= j < |s| ==> s[j] != '}'
    decreases |s| - from
  {
    if from == |s| then None
    else if s[from] == '}' then Some(from)
    else CloseIndex(s, from + 1)
  }

  /** The first '}' at or after `from` is the one `CloseIndex` finds. */
  lemma CloseIndexIsFirst(s: string, from: nat, k: nat)
    requires from <= k < |s| && s[k] == '}'
    requires forall j :: from <= j < k ==> s[j] != '}'
    ensures CloseIndex(s, from) == Some(k)
  {
  }

  /** The length of the match of the group pattern at the start of `s`, if the
      pattern matches there. */
  function MatchAt(s: string): (r: Option<nat>)
    ensures r.Some? ==> 2 <= r.value <= |s| && s[0] == '{' && s[r.value - 1] == '}'
    ensures r.Some? ==> IsBody(s[1..r.value - 1])
  {
    if |s| == 0 || s[0] != '{' then None
    else
      match CloseIndex(s, 1)
      case None => None
      case Some(k) => if IsBody(s[1..k]) then Some(k + 1) else None
  }

  /** The group pattern matches exactly the first `n` characters of `s`. */
  ghost predicate RegexMatchAt(s: string, n: nat)
  {
    2 <= n <= |s| && s[0] == '{' && s[n - 1] == '}' && GroupRegex(s[1..n - 1])
  }

  /** `MatchAt` finds a match exactly when the pattern matches, and then the
      match it reports is the pattern's (so the match at a position is unique). */
  lemma MatchAtIsRegexMatch(s: string, n: nat)
    ensures MatchAt(s) == Some(n) <==> RegexMatchAt(s, n)
  {
    if MatchAt(s) == Some(n) {
      BodyIsGroupRegex(s[1..n - 1]);
    }
    if RegexMatchAt(s, n) {
      var body := s[1..n - 1];
      BodyIsGroupRegex(body);
      BodyHasNoBrace(body);
      assert forall j :: 1 <= j < n - 1 ==> s[j] != '}' by {
        forall j | 1 <= j < n - 1 ensures s[j] != '}' {
          assert s[j] == body[j - 1];
        }
      }
      CloseIndexIsFirst(s, 1, n - 1);
    }
  }

  /** `findall`: the bodies of all leftmost non-overlapping matches, left to right. */
  function FindAll(s: string): (r: seq<string>)
    ensures forall i :: 0 <= i < |r| ==> IsBody(r[i])
    decreases |s|
  {
    if |s| == 0 then []
    else
      match MatchAt(s)
      case Some(n) => [s[1..n - 1]] + FindAll(s[n..])
      case None => FindAll(s[1..])
  }

  /** The group of one body: `set(body.split('/'))`, each piece read as a token. */
  function ParseGroup(body: string): (g: Group)
    requires IsBody(body)
    ensures g != {}
    ensures forall t :: t in g <==> Text(t) in Split(body)
  {
    var pieces := Split(body);
    var g := set p | p in pieces :: ToToken(p).value;
    assert ToToken(pieces[0]).value in g;
    assert forall t :: Text(t) in pieces ==> t in g by {
      forall t | Text(t) in pieces ensures t in g {
        TextRoundTrip(t);
      }
    }
    g
  }

  /** `ManaCost(text)`: the groups of every match of the pattern in the text. */
  function Parse(text: string): (cost: Cost)
    ensures WellFormed(cost)
    ensures |cost| == |FindAll(text)|
    ensures forall i :: 0 <= i < |cost| ==> cost[i] == ParseGroup(FindAll(text)[i])
  {
    var bodies := FindAll(text);
    seq(|bodies|, i requires 0 <= i < |bodies| => ParseGroup(bodies[i]))
  }

  /** Text without an opening brace contributes nothing. */
  lemma {:induction false} FindAllSkipsText(junk: string, s: string)
    requires '{' !in junk
    ensures FindAll(junk + s) == FindAll(s)
    decreases |junk|
  {
    if |junk| > 0 {
      assert junk[0] in junk;
      assert (junk + s)[1..] == junk[1..] + s;
      FindAllSkipsText(junk[1..], s);
    } else {
      assert junk + s == s;
    }
  }

  /** A well-formed group at the start of the text is the first match. */
  lemma FindAllGroup(body: string, rest: string)
    requires IsBody(body)
    ensures FindAll("{" + body + "}" + rest) == [body] + FindAll(rest)
  {
    var s := "{" + body + "}" + rest;
    var n := |body| + 2;
    assert s[1..n - 1] == body;
    BodyIsGroupRegex(body);
    MatchAtIsRegexMatch(s, n);
    assert s[n..] == rest;
  }

  /** The texts of a group's alternatives. */
  function Texts(alts: seq<Token>): (r: seq<string>)
    ensures |r| == |alts|
    ensures forall i :: 0 <= i < |alts| ==> r[i] == Text(alts[i])
  {
    if |alts| == 0 then [] else [Text(alts[0])] + Texts(alts[1..])
  }

  /** The text `{a/b/...}` of one group, alternatives in the given order. */
  function RenderGroup(alts: seq<Token>): string
    requires |alts| >= 1
  {
    "{" + Join(Texts(alts)) + "}"
  }

  /** The text of a whole cost: its groups written one after another. */
  function Render(groups: seq<seq<Token>>): string
    requires forall i :: 0 <= i < |groups| ==> |groups[i]| >= 1
  {
    if |groups| == 0 then ""
    else
      RenderGroup(groups[0]) + Render(groups[1..])
  }

  /** The joined texts of a group's alternatives form a well-formed body. */
  lemma RenderedBodyIsBody(alts: seq<Token>)
    requires |alts| >= 1
    ensures IsBody(Join(Texts(alts)))
    ensures Split(Join(Texts(alts))) == Texts(alts)
  {
    var texts := Texts(alts);
    forall i | 0 <= i < |texts| ensures IsAlt(texts[i]) && '/' !in texts[i] {
      TextRoundTrip(alts[i]);
      AltHasNoDelimiter(texts[i]);
    }
    SplitJoin(texts);
    assert GroupRegex(Join(texts));
    BodyIsGroupRegex(Join(texts));
  }

  /** Parsing the text of a group gives back its alternatives as a set. */
  lemma ParseRenderedGroup(alts: seq<Token>)
    requires |alts| >= 1
    ensures IsBody(Join(Texts(alts)))
    ensures ParseGroup(Join(Texts(alts))) == set t | t in alts
  {
    RenderedBodyIsBody(alts);
    var texts := Texts(alts);
    var g := ParseGroup(Join(texts));
    forall t ensures t in g <==> t in alts {
      if t in alts {
        var i :| 0 <= i < |alts| && alts[i] == t;
        assert Text(t) == texts[i];
      }
      if t in g {
        var i :| 0 <= i < |texts| && texts[i] == Text(t);
        TextRoundTrip(t);
        TextRoundTrip(alts[i]);
      }
    }
  }

  /** Parsing a group followed by more text gives that group, then the rest. */
  lemma ParseGroupPrefix(alts: seq<Token>, rest: string)
    requires |alts| >= 1
    ensures Parse(RenderGroup(alts) + rest) == [set t | t in alts] + Parse(rest)
  {
    ParseRenderedGroup(alts);
    var body := Join(Texts(alts));
    assert RenderGroup(alts) + rest == "{" + body + "}" + rest;
    FindAllGroup(body, rest);
  }

  /** Text before a group that has no opening brace is skipped. */
  lemma ParseSkipsText(junk: string, s: string)
    requires '{' !in junk
    ensures Parse(junk + s) == Parse(s)
  {
    FindAllSkipsText(junk, s);
  }

  /** A bracketed segment whose body is not `alt(/alt)*` contributes nothing. */
  lemma MalformedGroupSkipped(bad: string, rest: string)
    requires '{' !in bad && '}' !in bad
    requires !GroupRegex(bad)
    ensures Parse("{" + bad + "}" + rest) == Parse(rest)
  {
    var s := "{" + bad + "}" + rest;
    assert MatchAt(s) == None by {
      BodyIsGroupRegex(bad);
      assert s[1..|bad| + 1] == bad;
      forall j | 1 <= j < |bad| + 1 ensures s[j] != '}' {
        assert s[j] == bad[j - 1];
      }
      CloseIndexIsFirst(s, 1, |bad| + 1);
    }
    assert FindAll(s) == FindAll(s[1..]);
    assert s[1..] == (bad + "}") + rest;
    FindAllSkipsText(bad + "}", rest);
  }

  /** The text of a cost parses back to its groups, each as a set. */
  lemma {:induction false} ParseRender(groups: seq<seq<Token>>)
    requires forall i :: 0 <= i < |groups| ==> |groups[i]| >= 1
    ensures Parse(Render(groups)) == seq(|groups|, i requires 0 <= i < |groups| => set t | t in groups[i])
    decreases |groups|
  {
    if |groups| > 0 {
      ParseRender(groups[1..]);
      ParseGroupPrefix(groups[0], Render(groups[1..]));
    }
  }
}
