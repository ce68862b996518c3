/** Turning a routing rule such as `/users/<int:id>` into the OpenAPI path template
    `/users/{id}`: `re.sub(PATH_RE, r"{\1}", rule.rule)`.

    Two versions of the pattern are modelled. `AsWritten` is the pattern
    `<(?:[^:]*:)?([^>]+)>`, whose converter prefix `[^:]*` may run past the `>` closing a
    placeholder and swallow the next placeholder too. `Corrected` is
    `<(?:[^:>]*:)?([^>]+)>`, which stops the prefix at the placeholder's end; it is the one
    the rest of the model uses. */
module PathRule {
  import opened Wrappers

  datatype Pattern = AsWritten | Corrected

  /** The index of the first `c` in `s`. */
  function Find(s: string, c: char): (r: Option<nat>)
    ensures r.Some? ==> r.value < |s| && s[r.value] == c
    ensures r.Some? ==> forall i :: 0 <= i < r.value ==> s[i] != c
    ensures r.None? ==> forall i :: 0 <= i < |s| ==> s[i] != c
  {
    if |s| == 0 then None
    else if s[0] == c then Some(0)
    else
      match Find(s[1..], c)
      case Some(i) => Some(i + 1)
      case None => None
  }

  /** A placeholder recognised at the start of the text: its group 1 and the length of the
      whole match. */
  datatype Match = Match(name: string, length: nat)

  /** The regular-expression match attempted at a `<`. Both versions try the converter
      prefix first (the optional group is greedy) and fall back to reading the whole
      bracketed text as the name. */
  function MatchAt(p: Pattern, s: string): (m: Option<Match>)
    requires |s| > 0 && s[0] == '<'
    ensures m.Some? ==> 2 < m.value.length <= |s| && s[m.value.length - 1] == '>'
    ensures m.Some? ==> |m.value.name| > 0 && '>' !in m.value.name
  {
    var t := s[1..];
    match p
    case AsWritten =>
      var prefixed :=
        match Find(t, ':')
        case Some(c) =>
          (match Find(t[c + 1..], '>')
           case Some(g) => if g > 0 then Some(Match(t[c + 1..c + 1 + g], c + g + 3)) else None
           case None => None)
        case None => None;
      if prefixed.Some? then prefixed
      else
        (match Find(t, '>')
         case Some(g) => if g > 0 then Some(Match(t[..g], g + 2)) else None
         case None => None)
    case Corrected =>
      match Find(t, '>')
      case None => None
      case Some(g) =>
        var c := Find(t[..g], ':');
        if c.Some? && c.value + 1 < g then Some(Match(t[c.value + 1..g], g + 2))
        else if g > 0 then Some(Match(t[..g], g + 2))
        else None
  }

  /** `re.sub(pattern, r"{\1}", s)`: scan left to right, replace each match by `{name}`,
      copy every other character. */
  function Substitute(p: Pattern, s: string): (r: string)
    decreases |s|
  {
    if |s| == 0 then ""
    else if s[0] == '<' && MatchAt(p, s).Some? then
      var m := MatchAt(p, s).value;
      "{" + m.name + "}" + Substitute(p, s[m.length..])
    else [s[0]] + Substitute(p, s[1..])
  }

  function NormaliseAsWritten(rule: string): string {
    Substitute(AsWritten, rule)
  }

  function Normalise(rule: string): string {
    Substitute(Corrected, rule)
  }

  /** A routing rule as Werkzeug reads it: literal text and `<converter:name>` placeholders. */
  datatype Segment = Literal(text: string) | Placeholder(converter: Option<string>, name: string)

  predicate ValidName(name: string) {
    |name| > 0 && '<' !in name && '>' !in name && ':' !in name
  }

  predicate ValidSegment(seg: Segment) {
    match seg
    case Literal(text) => '<' !in text
    case Placeholder(conv, name) =>
      ValidName(name) && (conv.Some? ==> ':' !in conv.value && '>' !in conv.value)
  }

  function RenderSegment(seg: Segment): string {
    match seg
    case Literal(text) => text
    case Placeholder(None, name) => "<" + name + ">"
    case Placeholder(Some(conv), name) => "<" + conv + ":" + name + ">"
  }

  /** The rule text the segments spell. */
  function Render(segs: seq<Segment>): string {
    if |segs| == 0 then "" else RenderSegment(segs[0]) + Render(segs[1..])
  }

  /** The OpenAPI template the segments stand for: each placeholder as `{name}`. */
  function Template(segs: seq<Segment>): string {
    if |segs| == 0 then ""
    else
      var head :=
        match segs[0]
        case Literal(text) => text
        case Placeholder(_, name) => "{" + name + "}";
      head + Template(segs[1..])
  }

  /** Text without a `<` holds no placeholder and passes through unchanged: in particular
      an already normalised template is left alone. */
  lemma {:induction false} SubstituteNoPlaceholder(p: Pattern, s: string, rest: string)
    requires '<' !in s
    ensures Substitute(p, s + rest) == s + Substitute(p, rest)
    decreases |s|
  {
    if |s| > 0 {
      assert (s + rest)[0] == s[0];
      assert (s + rest)[1..] == s[1..] + rest;
      SubstituteNoPlaceholder(p, s[1..], rest);
    } else {
      assert s + rest == rest;
    }
  }

  lemma NormaliseNoPlaceholder(s: string)
    requires '<' !in s
    ensures Normalise(s) == s
  {
    SubstituteNoPlaceholder(Corrected, s, "");
    assert s + "" == s;
  }

  /** The corrected pattern reads a well-formed placeholder, and only it, as one match. */
  lemma PlaceholderMatches(conv: Option<string>, name: string, rest: string)
    requires ValidSegment(Placeholder(conv, name))
    ensures var text := RenderSegment(Placeholder(conv, name));
      MatchAt(Corrected, text + rest) == Some(Match(name, |text|))
  {
    var text := RenderSegment(Placeholder(conv, name));
    match conv
    case None =>
      assert text == "<" + name + ">";
      PlainPlaceholderMatches(name, rest);
      assert |text| == |name| + 2;
    case Some(c) =>
      assert text == "<" + c + ":" + name + ">";
      ConverterPlaceholderMatches(c, name, rest);
      assert |text| == |c| + |name| + 3;
  }

  lemma PlainPlaceholderMatches(name: string, rest: string)
    requires ValidName(name)
    ensures MatchAt(Corrected, "<" + name + ">" + rest) == Some(Match(name, |name| + 2))
  {
    var s := "<" + name + ">" + rest;
    var t := s[1..];
    assert t == name + ">" + rest;
    NameBeforeClose(name, rest);
    assert t[..|name|] == name;
    assert Find(t[..|name|], ':') == None;
  }

  lemma ConverterPlaceholderMatches(c: string, name: string, rest: string)
    requires ValidName(name) && ':' !in c && '>' !in c
    ensures MatchAt(Corrected, "<" + c + ":" + name + ">" + rest) == Some(Match(name, |c| + |name| + 3))
  {
    var s := "<" + c + ":" + name + ">" + rest;
    var t := s[1..];
    var g := |c| + 1 + |name|;
    assert t == (c + ":" + name) + ">" + rest;
    assert '>' !in c + ":" + name;
    NameBeforeClose(c + ":" + name, rest);
    assert t[..g] == c + ":" + name;
    FindFirst(c, ':', name);
    assert t[|c| + 1..g] == name;
  }

  /** Normalising the text of a well-formed rule yields its template: each placeholder
      becomes `{name}` and the literal text is kept. */
  lemma {:induction false} NormaliseRendered(segs: seq<Segment>)
    requires forall i :: 0 <= i < |segs| ==> ValidSegment(segs[i])
    ensures Normalise(Render(segs)) == Template(segs)
  {
    if |segs| > 0 {
      var rest := Render(segs[1..]);
      NormaliseRendered(segs[1..]);
      match segs[0]
      case Literal(text) =>
        SubstituteNoPlaceholder(Corrected, text, rest);
      case Placeholder(conv, name) =>
        var text := RenderSegment(segs[0]);
        PlaceholderMatches(conv, name, rest);
        assert (text + rest)[|text|..] == rest;
    }
  }

  /** A well-formed rule's template has no `<`, so normalising twice is normalising once. */
  lemma {:induction false} NormaliseIdempotent(segs: seq<Segment>)
    requires forall i :: 0 <= i < |segs| ==> ValidSegment(segs[i])
    ensures Normalise(Normalise(Render(segs))) == Normalise(Render(segs))
  {
    NormaliseRendered(segs);
    TemplateHasNoPlaceholder(segs);
    NormaliseNoPlaceholder(Template(segs));
  }

  lemma {:induction false} TemplateHasNoPlaceholder(segs: seq<Segment>)
    requires forall i :: 0 <= i < |segs| ==> ValidSegment(segs[i])
    ensures '<' !in Template(segs)
  {
    if |segs| > 0 {
      TemplateHasNoPlaceholder(segs[1..]);
    }
  }

  /** The pattern as written lets the converter prefix of a placeholder without converter
      run on to the next `:`: when a later placeholder has a converter, both placeholders
      and the text between them collapse into the later one's `{name}`. */
  lemma AsWrittenMerges(first: string, mid: string, conv: string, second: string, rest: string)
    requires ':' !in first && ':' !in mid && ':' !in conv
    requires |second| > 0 && '>' !in second
    ensures NormaliseAsWritten("<" + first + ">" + (mid + ("<" + conv + ":" + second + ">" + rest)))
         == "{" + second + "}" + NormaliseAsWritten(rest)
  {
    var x := "<" + first + ">" + (mid + ("<" + conv + ":" + second + ">" + rest));
    var t := x[1..];
    var c := |first| + 1 + |mid| + 1 + |conv|;
    var g := |second|;
    forall i | 0 <= i < c
      ensures t[i] != ':'
    {
      if i < |first| {
        assert t[i] == first[i];
      } else if i == |first| {
      } else if i < |first| + 1 + |mid| {
        assert t[i] == mid[i - |first| - 1];
      } else if i == |first| + 1 + |mid| {
      } else {
        assert t[i] == conv[i - |first| - 2 - |mid|];
      }
    }
    assert t[c] == ':';
    FindAt(t, ':', c);
    var tail := t[c + 1..];
    assert forall i :: 0 <= i < g ==> tail[i] == second[i];
    assert tail[g] == '>';
    FindAt(tail, '>', g);
    assert tail[..g] == second;
    assert tail[g + 1..] == rest;
    PrefixedMatch(x, t, c, tail, g);
  }

  /** `Find` stops at the first occurrence. */
  lemma FindAt(s: string, ch: char, n: nat)
    requires n < |s| && s[n] == ch
    requires forall i :: 0 <= i < n ==> s[i] != ch
    ensures Find(s, ch) == Some(n)
  {
  }

  lemma SubstituteAtMatch(p: Pattern, x: string, m: Match)
    requires |x| > 0 && x[0] == '<' && MatchAt(p, x) == Some(m)
    ensures Substitute(p, x) == "{" + m.name + "}" + Substitute(p, x[m.length..])
  {
  }

  lemma NameBeforeClose(name: string, rest: string)
    requires '>' !in name
    ensures Find(name + ">" + rest, '>') == Some(|name|)
  {
    var u := name + ">" + rest;
    assert u[|name|] == '>';
    assert forall i :: 0 <= i < |name| ==> u[i] == name[i];
  }

  lemma FindFirst(prefix: string, ch: char, rest: string)
    requires ch !in prefix
    ensures Find(prefix + [ch] + rest, ch) == Some(|prefix|)
  {
    var u := prefix + [ch] + rest;
    assert u[|prefix|] == ch;
    assert forall i :: 0 <= i < |prefix| ==> u[i] == prefix[i];
  }

  lemma PrefixedMatch(x: string, t: string, c: nat, tail: string, g: nat)
    requires |x| > 0 && x[0] == '<' && x[1..] == t
    requires Find(t, ':') == Some(c) && t[c + 1..] == tail
    requires Find(tail, '>') == Some(g) && g > 0
    ensures NormaliseAsWritten(x) == "{" + tail[..g] + "}" + NormaliseAsWritten(tail[g + 1..])
  {
    var m := Match(tail[..g], c + g + 3);
    PrefixedMatchAt(x, t, c, tail, g);
    assert x[m.length..] == tail[g + 1..];
    SubstituteAtMatch(AsWritten, x, m);
  }

  /** With a `:` in the text and a non-empty name after it, the pattern as written takes
      the converter branch. */
  lemma PrefixedMatchAt(x: string, t: string, c: nat, tail: string, g: nat)
    requires |x| > 0 && x[0] == '<' && x[1..] == t
    requires Find(t, ':') == Some(c) && t[c + 1..] == tail
    requires Find(tail, '>') == Some(g) && g > 0
    ensures MatchAt(AsWritten, x) == Some(Match(tail[..g], c + g + 3))
  {
    assert t[c + 1..c + 1 + g] == tail[..g];
  }

  /** Any rule with a placeholder without converter followed, past text without `:`, by a
      placeholder with one: the pattern as written keeps only the text before the first
      placeholder and the second placeholder's name, while the corrected pattern gives the
      template with both. */
  lemma AsWrittenSwallows(pre: string, first: string, mid: string, conv: string, second: string)
    requires '<' !in pre && '<' !in mid && ':' !in mid
    requires ValidName(first) && ValidName(second) && ':' !in conv && '>' !in conv
    ensures var segs := [Literal(pre), Placeholder(None, first), Literal(mid), Placeholder(Some(conv), second)];
      && (forall i :: 0 <= i < |segs| ==> ValidSegment(segs[i]))
      && NormaliseAsWritten(Render(segs)) == pre + ("{" + second + "}")
      && Normalise(Render(segs)) == pre + ("{" + first + "}" + (mid + ("{" + second + "}")))
      && NormaliseAsWritten(Render(segs)) != Normalise(Render(segs))
  {
    var segs := [Literal(pre), Placeholder(None, first), Literal(mid), Placeholder(Some(conv), second)];
    assert forall i :: 0 <= i < |segs| ==> ValidSegment(segs[i]);
    assert NormaliseAsWritten(Render(segs)) == pre + ("{" + second + "}") by {
      RenderFour(segs);
      var close := "<" + conv + ":" + second + ">";
      assert close + "" == close;
      var x := "<" + first + ">" + (mid + close);
      SubstituteNoPlaceholder(AsWritten, pre, x);
      AsWrittenMerges(first, mid, conv, second, "");
      assert NormaliseAsWritten("") == "";
      assert "{" + second + "}" + "" == "{" + second + "}";
    }
    assert Normalise(Render(segs)) == pre + ("{" + first + "}" + (mid + ("{" + second + "}"))) by {
      NormaliseRendered(segs);
      TemplateFour(segs);
    }
    assert |NormaliseAsWritten(Render(segs))| < |Normalise(Render(segs))|;
  }

  lemma RenderFour(segs: seq<Segment>)
    requires |segs| == 4
    ensures Render(segs) == RenderSegment(segs[0]) + (RenderSegment(segs[1])
      + (RenderSegment(segs[2]) + RenderSegment(segs[3])))
  {
    var r3 := Render(segs[3..]);
    assert r3 == RenderSegment(segs[3]) by {
      assert segs[3..][1..] == [] && segs[3..][0] == segs[3];
      assert r3 == RenderSegment(segs[3]) + Render([]);
    }
    var r2 := Render(segs[2..]);
    assert r2 == RenderSegment(segs[2]) + r3 by {
      assert segs[2..][1..] == segs[3..] && segs[2..][0] == segs[2];
    }
    var r1 := Render(segs[1..]);
    assert r1 == RenderSegment(segs[1]) + r2 by {
      assert segs[1..][1..] == segs[2..] && segs[1..][0] == segs[1];
    }
  }

  lemma TemplateFour(segs: seq<Segment>)
    requires |segs| == 4 && segs[0].Literal? && segs[1].Placeholder? && segs[2].Literal? && segs[3].Placeholder?
    ensures Template(segs) == segs[0].text + ("{" + segs[1].name + "}"
      + (segs[2].text + ("{" + segs[3].name + "}")))
  {
    var t3 := Template(segs[3..]);
    assert t3 == "{" + segs[3].name + "}" by {
      assert segs[3..][1..] == [] && segs[3..][0] == segs[3];
      assert t3 == "{" + segs[3].name + "}" + Template([]);
    }
    var t2 := Template(segs[2..]);
    assert t2 == segs[2].text + t3 by {
      assert segs[2..][1..] == segs[3..] && segs[2..][0] == segs[2];
    }
    var t1 := Template(segs[1..]);
    assert t1 == "{" + segs[1].name + "}" + t2 by {
      assert segs[1..][1..] == segs[2..] && segs[1..][0] == segs[1];
    }
  }

  /** The smallest instance: `/a/<id>/b/<int:x>` becomes `/a/{x}` with the pattern as
      written, and `/a/{id}/b/{x}` with the corrected one. */
  lemma AsWrittenSwallowsPlaceholder(segs: seq<Segment>)
    requires segs == [Literal("/a/"), Placeholder(None, "id"), Literal("/b/"), Placeholder(Some("int"), "x")]
    ensures NormaliseAsWritten(Render(segs)) == "/a/{x}"
    ensures Normalise(Render(segs)) == "/a/{id}/b/{x}"
  {
    AsWrittenSwallows("/a/", "id", "/b/", "int", "x");
    assert "/a/" + ("{" + "x" + "}") == "/a/{x}";
    assert "/a/" + ("{" + "id" + "}" + ("/b/" + ("{" + "x" + "}"))) == "/a/{id}/b/{x}";
  }

  /** A rule in which no `:` follows a placeholder without converter: the shape the pattern
      as written was meant for. */
  predicate NoColonAfterPlain(segs: seq<Segment>) {
    forall i :: 0 <= i < |segs| && segs[i].Placeholder? && segs[i].converter.None? ==>
      ':' !in Render(segs[i + 1..])
  }

  /** With no `:` after it, the pattern as written reads a placeholder without converter
      as the corrected one does. */
  lemma AsWrittenPlainMatches(name: string, rest: string)
    requires ValidName(name) && ':' !in rest
    ensures MatchAt(AsWritten, "<" + name + ">" + rest) == Some(Match(name, |name| + 2))
  {
    var t := ("<" + name + ">" + rest)[1..];
    assert t == name + ">" + rest;
    assert ':' !in t;
    NameBeforeClose(name, rest);
    assert t[..|name|] == name;
  }

  /** The pattern as written reads a placeholder with converter as the corrected one does. */
  lemma AsWrittenConverterMatches(c: string, name: string, rest: string)
    requires ValidName(name) && ':' !in c && '>' !in c
    ensures MatchAt(AsWritten, "<" + c + ":" + name + ">" + rest) == Some(Match(name, |c| + |name| + 3))
  {
    var x := "<" + c + ":" + name + ">" + rest;
    var tail := name + ">" + rest;
    var t := x[1..];
    assert t == c + [':'] + tail;
    FindFirst(c, ':', tail);
    assert t[|c| + 1..] == tail;
    NameBeforeClose(name, rest);
    PrefixedMatchAt(x, t, |c|, tail, |name|);
    assert tail[..|name|] == name;
  }

  /** Where no `:` follows a placeholder without converter, the pattern as written yields
      the template too, so it agrees with the corrected one: the finding only concerns
      the other rules. */
  lemma {:induction false} AsWrittenAgrees(segs: seq<Segment>)
    requires forall i :: 0 <= i < |segs| ==> ValidSegment(segs[i])
    requires NoColonAfterPlain(segs)
    ensures NormaliseAsWritten(Render(segs)) == Template(segs)
    ensures NormaliseAsWritten(Render(segs)) == Normalise(Render(segs))
  {
    NormaliseRendered(segs);
    if |segs| > 0 {
      var rest := Render(segs[1..]);
      assert NoColonAfterPlain(segs[1..]) by {
        forall i | 0 <= i < |segs[1..]| && segs[1..][i].Placeholder? && segs[1..][i].converter.None?
          ensures ':' !in Render(segs[1..][i + 1..])
        {
          assert segs[1..][i + 1..] == segs[i + 2..];
          assert segs[i + 1] == segs[1..][i];
        }
      }
      AsWrittenAgrees(segs[1..]);
      match segs[0]
      case Literal(text) =>
        SubstituteNoPlaceholder(AsWritten, text, rest);
      case Placeholder(conv, name) =>
        var text := RenderSegment(segs[0]);
        if conv.None? {
          assert segs[1..] == segs[0 + 1..];
          AsWrittenPlainMatches(name, rest);
        } else {
          AsWrittenConverterMatches(conv.value, name, rest);
        }
        assert (text + rest)[|text|..] == rest;
    }
  }
}
