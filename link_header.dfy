/**
  The `Link` response-header parser of utils/parseLinkHeader.js. It is a deliberately
  small subset of RFC 8288 section 3: the header is cut at every comma, and each piece
  contributes at most one relation, found by the regular expression
  `<([^>]+)>\s*;\s*rel="([^"]+)"` (first match only, anywhere in the piece).
  A later piece overwrites an earlier one with the same relation name.
*/
module LinkHeader {
  import opened Wrappers
  import opened Js

  /** The first position at or after `i` holding `c`, if any. */
  function FindFrom(p: string, i: nat, c: char): (r: Option<nat>)
    requires i <= |p|
    ensures r.Some? ==> i <= r.value < |p| && p[r.value] == c
    ensures r.Some? ==> forall k :: i <= k < r.value ==> p[k] != c
    ensures r.None? ==> forall k :: i <= k < |p| ==> p[k] != c
    decreases |p| - i
  {
    if i == |p| then None
    else if p[i] == c then Some(i)
    else FindFrom(p, i + 1, c)
  }

  /** The first position at or after `i` that is not white space (`\s*` consumes up to it). */
  function SkipSpaces(p: string, i: nat): (r: nat)
    requires i <= |p|
    ensures i <= r <= |p|
    ensures forall k :: i <= k < r ==> IsSpace(p[k])
    ensures r < |p| ==> !IsSpace(p[r])
    decreases |p| - i
  {
    if i < |p| && IsSpace(p[i]) then SkipSpaces(p, i + 1) else i
  }

  const RelPrefix: string := "rel=\""

  /**
    The match of the pattern starting exactly at position `i`, as the pair (url, rel).
    Each quantified part (`[^>]+`, `\s*`, `[^"]+`) is followed by a character it cannot
    consume, so backtracking never finds a second way to match: the match at `i` is unique.
  */
  function MatchAt(p: string, i: nat): (r: Option<(string, string)>)
    requires i <= |p|
    ensures r.Some? ==> r.value.0 != "" && '>' !in r.value.0
    ensures r.Some? ==> r.value.1 != "" && '"' !in r.value.1
    ensures r.Some? ==> (forall c :: c in r.value.0 ==> c in p) && (forall c :: c in r.value.1 ==> c in p)
  {
    if i == |p| || p[i] != '<' then None
    else match FindFrom(p, i + 1, '>')
      case None => None
      case Some(j) =>
        if j == i + 1 then None
        else
          var k := SkipSpaces(p, j + 1);
          if k == |p| || p[k] != ';' then None
          else
            var m := SkipSpaces(p, k + 1);
            if m + |RelPrefix| > |p| || p[m..m + |RelPrefix|] != RelPrefix then None
            else match FindFrom(p, m + |RelPrefix|, '"')
              case None => None
              case Some(n) =>
                if n == m + |RelPrefix| then None
                else
                  Some((p[i + 1..j], p[m + |RelPrefix|..n]))
  }

  /**
    Where `p.match(pattern)` (no `g` flag) finds its match: the leftmost position at or
    after `i` where the pattern matches. Every earlier position holds no match.
  */
  function FirstMatchAt(p: string, i: nat): (r: Option<nat>)
    requires i <= |p|
    ensures r.Some? ==> i <= r.value < |p| && MatchAt(p, r.value).Some?
    ensures r.Some? ==> forall t :: i <= t < r.value ==> MatchAt(p, t).None?
    ensures r.None? ==> forall t :: i <= t <= |p| ==> MatchAt(p, t).None?
    decreases |p| - i
  {
    if i == |p| then None
    else if MatchAt(p, i).Some? then Some(i)
    else FirstMatchAt(p, i + 1)
  }

  /** The (url, rel) pair one comma-separated piece contributes, if any: its leftmost match. */
  function MatchSegment(p: string): (r: Option<(string, string)>)
    ensures r.Some? ==> r.value.0 != "" && '>' !in r.value.0 && (forall c :: c in r.value.0 ==> c in p)
    ensures r.Some? ==> r.value.1 != "" && '"' !in r.value.1 && (forall c :: c in r.value.1 ==> c in p)
  {
    match FirstMatchAt(p, 0)
    case Some(s) => MatchAt(p, s)
    case None => None
  }

  /** Filling the relation map piece by piece, later pieces overwriting earlier ones (the loop's meaning). */
  function Fill(parts: seq<string>): map<string, string>
  {
    if parts == [] then map[]
    else
      var rels := Fill(parts[..|parts| - 1]);
      match MatchSegment(parts[|parts| - 1])
      case Some((url, rel)) => rels[rel := url]
      case None => rels
  }

  /** What `parseLinkHeader(link)` returns; `None` stands for an absent header. */
  function Rels(link: Option<string>): map<string, string> {
    match link
    case None => map[]
    case Some(s) => if s == "" then map[] else Fill(Split(s, ','))
  }

  /** The parser as the source writes it: a loop over the comma-separated pieces, writing into `rels`. */
  method ParseLinkHeader(link: Option<string>) returns (rels: map<string, string>)
    ensures rels == Rels(link)
    ensures link.None? || link == Some("") ==> rels == map[]
    ensures forall rel :: rel in rels ==> rel != "" && '"' !in rel && ',' !in rel
    ensures forall rel :: rel in rels ==> rels[rel] != "" && '>' !in rels[rel] && ',' !in rels[rel]
  {
    rels := map[];
    if link.None? || link.value == "" {
      return;
    }
    var parts := Split(link.value, ',');
    for n := 0 to |parts|
      invariant rels == Fill(parts[..n])
    {
      FillSnoc(parts, n);
      var m := MatchSegment(parts[n]);
      if m.Some? {
        var (url, rel) := m.value;
        rels := rels[rel := url];
      }
    }
    assert parts[..|parts|] == parts;
    RelsWellFormed(link);
  }

  /** One more piece: its match, if any, overwrites the entry for its relation. */
  lemma FillSnoc(parts: seq<string>, n: nat)
    requires n < |parts|
    ensures Fill(parts[..n + 1]) == match MatchSegment(parts[n])
      case Some((url, rel)) => Fill(parts[..n])[rel := url]
      case None => Fill(parts[..n])
  {
    assert parts[..n + 1][..n] == parts[..n];
  }

  /** Every relation `parseLinkHeader` can return is a non-empty name with a non-empty url. */
  lemma RelsWellFormed(link: Option<string>)
    ensures forall rel :: rel in Rels(link) ==> rel != "" && '"' !in rel && ',' !in rel
    ensures forall rel :: rel in Rels(link) ==> Rels(link)[rel] != "" && '>' !in Rels(link)[rel] && ',' !in Rels(link)[rel]
  {
    if link.Some? && link.value != "" {
      FillWellFormed(Split(link.value, ','));
    }
  }

  /** Every stored pair came out of a match inside a piece without commas. */
  lemma {:induction false} FillWellFormed(parts: seq<string>)
    requires forall k :: 0 <= k < |parts| ==> ',' !in parts[k]
    ensures forall rel :: rel in Fill(parts) ==> rel != "" && '"' !in rel && ',' !in rel
    ensures forall rel :: rel in Fill(parts) ==> Fill(parts)[rel] != "" && '>' !in Fill(parts)[rel] && ',' !in Fill(parts)[rel]
  {
    if parts != [] {
      FillWellFormed(parts[..|parts| - 1]);
      var p := parts[|parts| - 1];
    }
  }

  /** Piece `p`'s match names relation `rel`. */
  predicate Names(p: string, rel: string) {
    MatchSegment(p).Some? && MatchSegment(p).value.1 == rel
  }

  /** Some piece's match names relation `rel`. */
  predicate SomeNames(parts: seq<string>, rel: string) {
    exists k :: 0 <= k < |parts| && Names(parts[k], rel)
  }

  /** A relation is in the map exactly when some piece's match names it. */
  lemma {:induction false} FillKeys(parts: seq<string>, rel: string)
    ensures rel in Fill(parts) <==> exists k :: 0 <= k < |parts| && Names(parts[k], rel)
  {
    if parts != [] {
      var n := |parts| - 1;
      var init := parts[..n];
      FillKeys(init, rel);
      FillLastPiece(parts, rel);
      assert forall k :: 0 <= k < n ==> init[k] == parts[k];
      if rel in Fill(parts) && !Names(parts[n], rel) {
        var k :| 0 <= k < n && Names(init[k], rel);
        assert Names(parts[k], rel);
      }
    }
  }

  /** How the last piece of `parts` decides the entry for `rel`. */
  lemma FillLastPiece(parts: seq<string>, rel: string)
    requires parts != []
    ensures var n := |parts| - 1;
      Names(parts[n], rel) ==> rel in Fill(parts) && Fill(parts)[rel] == MatchSegment(parts[n]).value.0
    ensures var n := |parts| - 1;
      !Names(parts[n], rel) ==> (rel in Fill(parts) <==> rel in Fill(parts[..n]))
    ensures var n := |parts| - 1;
      !Names(parts[n], rel) && rel in Fill(parts) ==> Fill(parts)[rel] == Fill(parts[..n])[rel]
  {
  }

  /** A stored relation comes from the last piece naming it, and carries that piece's url. */
  lemma {:induction false} FillLast(parts: seq<string>, rel: string) returns (k: nat)
    requires rel in Fill(parts)
    ensures k < |parts| && Names(parts[k], rel) && Fill(parts)[rel] == MatchSegment(parts[k]).value.0
    ensures forall j :: k < j < |parts| ==> !Names(parts[j], rel)
    decreases |parts|
  {
    var n := |parts| - 1;
    FillLastPiece(parts, rel);
    if Names(parts[n], rel) {
      k := n;
    } else {
      k := FillLast(parts[..n], rel);
      FillLastExtend(parts, rel, k);
    }
  }

  /** The step of `FillLast`: a last piece that does not name `rel` leaves the answer for `rel` where it was. */
  lemma FillLastExtend(parts: seq<string>, rel: string, k: nat)
    requires parts != [] && !Names(parts[|parts| - 1], rel)
    requires var init := parts[..|parts| - 1];
      && k < |init| && Names(init[k], rel) && rel in Fill(init) && Fill(init)[rel] == MatchSegment(init[k]).value.0
      && forall j :: k < j < |init| ==> !Names(init[j], rel)
    ensures k < |parts| && Names(parts[k], rel) && rel in Fill(parts) && Fill(parts)[rel] == MatchSegment(parts[k]).value.0
    ensures forall j :: k < j < |parts| ==> !Names(parts[j], rel)
  {
    var n := |parts| - 1;
    var init := parts[..n];
    FillLastPiece(parts, rel);
    assert init[k] == parts[k];
    forall j | k < j < |parts| ensures !Names(parts[j], rel) {
      if j < n {
        assert parts[j] == init[j] && !Names(init[j], rel);
      }
    }
  }

  /** When a relation repeats, the URL of the last piece naming it is the one kept. */
  lemma {:induction false} FillLastWins(parts: seq<string>, k: nat)
    requires k < |parts| && MatchSegment(parts[k]).Some?
    requires forall j :: k < j < |parts| && MatchSegment(parts[j]).Some? ==> MatchSegment(parts[j]).value.1 != MatchSegment(parts[k]).value.1
    ensures MatchSegment(parts[k]).value.1 in Fill(parts)
    ensures Fill(parts)[MatchSegment(parts[k]).value.1] == MatchSegment(parts[k]).value.0
    decreases |parts|
  {
    if k < |parts| - 1 {
      var init := parts[..|parts| - 1];
      assert init[k] == parts[k];
      forall j | k < j < |init| && MatchSegment(init[j]).Some?
        ensures MatchSegment(init[j]).value.1 != MatchSegment(init[k]).value.1
      {
        assert init[j] == parts[j];
      }
      FillLastWins(init, k);
    }
  }

  /** The piece `<url>; rel="rel"`, the form the parser expects. */
  function LinkValue(url: string, rel: string): string {
    "<" + url + ">; rel=\"" + rel + "\""
  }

  /** A `Link` header listing the given (url, rel) pairs, joined by commas. */
  function Serialize(links: seq<(string, string)>): string {
    Join(seq(|links|, k requires 0 <= k < |links| => LinkValue(links[k].0, links[k].1)), ",")
  }

  /** The relation map a list of links denotes: for each rel, the url of its last occurrence. */
  function LastWins(links: seq<(string, string)>): map<string, string> {
    if links == [] then map[]
    else LastWins(links[..|links| - 1])[links[|links| - 1].1 := links[|links| - 1].0]
  }

  /** URLs and relation names the serialised form can carry unambiguously. */
  predicate Carriable(url: string, rel: string) {
    url != "" && '>' !in url && ',' !in url && rel != "" && '"' !in rel && ',' !in rel
  }

  /** A well-formed piece matches at its start, and yields its url and rel. */
  lemma MatchLinkValue(url: string, rel: string)
    requires Carriable(url, rel)
    ensures MatchSegment(LinkValue(url, rel)) == Some((url, rel))
  {
    var p := LinkValue(url, rel);
    var j := |url| + 1;
    assert p[0] == '<';
    assert p[1..j] == url;
    assert FindFrom(p, 1, '>') == Some(j) by {
      assert p[j] == '>';
      assert forall k :: 1 <= k < j ==> p[k] == url[k - 1];
      FindFromExact(p, 1, j, '>');
    }
    assert p[j + 1] == ';';
    assert SkipSpaces(p, j + 1) == j + 1;
    assert p[j + 2] == ' ';
    var m := j + 3;
    assert SkipSpaces(p, j + 2) == m by {
      assert !IsSpace(p[m]) by { assert p[m] == 'r'; }
    }
    assert p[m..m + |RelPrefix|] == RelPrefix;
    var n := m + |RelPrefix| + |rel|;
    assert p[m + |RelPrefix|..n] == rel;
    assert FindFrom(p, m + |RelPrefix|, '"') == Some(n) by {
      assert p[n] == '"';
      assert forall k :: m + |RelPrefix| <= k < n ==> p[k] == rel[k - m - |RelPrefix|];
      FindFromExact(p, m + |RelPrefix|, n, '"');
    }
    assert MatchAt(p, 0) == Some((url, rel));
  }

  lemma {:induction false} FindFromExact(p: string, i: nat, j: nat, c: char)
    requires i <= j < |p| && p[j] == c
    requires forall k :: i <= k < j ==> p[k] != c
    ensures FindFrom(p, i, c) == Some(j)
    decreases j - i
  {
    if i < j { FindFromExact(p, i + 1, j, c); }
  }

  /**
    Round trip: serialising carriable links and parsing the header gives, for each
    relation, the url of its last occurrence.
  */
  lemma {:induction false} ParseSerialize(links: seq<(string, string)>)
    requires forall k :: 0 <= k < |links| ==> Carriable(links[k].0, links[k].1)
    ensures Rels(Some(Serialize(links))) == LastWins(links)
  {
    if links == [] {
      assert Serialize(links) == "";
      return;
    }
    var pieces := seq(|links|, k requires 0 <= k < |links| => LinkValue(links[k].0, links[k].1));
    forall k | 0 <= k < |pieces| ensures ',' !in pieces[k] {
      assert pieces[k] == "<" + links[k].0 + ">; rel=\"" + links[k].1 + "\"";
    }
    SplitJoin(pieces, ',');
    assert Join(pieces, [',']) == Serialize(links);
    assert Serialize(links) != "" by {
      JoinNonEmpty(pieces, ',');
    }
    FillPieces(links);
  }

  lemma {:induction false} JoinNonEmpty(pieces: seq<string>, sep: char)
    requires pieces != [] && pieces[0] != ""
    ensures Join(pieces, [sep]) != ""
  {
    if |pieces| > 1 {
      assert Join(pieces, [sep])[0] == pieces[0][0];
    }
  }

  lemma {:induction false} FillPieces(links: seq<(string, string)>)
    requires forall k :: 0 <= k < |links| ==> Carriable(links[k].0, links[k].1)
    ensures Fill(seq(|links|, k requires 0 <= k < |links| => LinkValue(links[k].0, links[k].1))) == LastWins(links)
  {
    var pieces := seq(|links|, k requires 0 <= k < |links| => LinkValue(links[k].0, links[k].1));
    if links != [] {
      var init := links[..|links| - 1];
      assert pieces[..|pieces| - 1] == seq(|init|, k requires 0 <= k < |init| => LinkValue(init[k].0, init[k].1));
      FillPieces(init);
      MatchLinkValue(links[|links| - 1].0, links[|links| - 1].1);
    }
  }

  /** The relation name is taken verbatim: `rel="next last"` is stored under "next last", not "next". */
  lemma RelKeptVerbatim()
    ensures Rels(Some(LinkValue("https://h/p2", "next last"))) == map["next last" := "https://h/p2"]
    ensures "next" !in Rels(Some(LinkValue("https://h/p2", "next last")))
  {
    var links := [("https://h/p2", "next last")];
    assert Carriable(links[0].0, links[0].1);
    ParseSerialize(links);
    assert Serialize(links) == LinkValue("https://h/p2", "next last");
    assert links[..0] == [];
  }
}
