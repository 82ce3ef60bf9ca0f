/** The pure part of `handleSearch` (src/App.tsx:74-137): cutting the query
    into names, picking a top hit among each name's candidates, and keeping
    the names that produced one. The network lookup itself is an input: one
    `Response` per name. */
module Search {
  import opened Seqs
  import opened Text
  import opened Species

  /** What one name's lookup ends with: a failure (the request rejected, a
      non-ok status, or an unreadable body, all caught and turned into
      `null`), or the list of candidates the autocomplete API returned. */
  datatype Response = Failed | Results(candidates: seq<Bird>)

  /** Non-blank after trimming: the `filter` test on a line. */
  predicate NonBlank(line: string)
  {
    Trim(line) != ""
  }

  /** `searchQuery.split("\n").filter(name => name.trim() !== "")`: the
      non-blank lines of the query, each with its multiplicity, in order. */
  function SearchLines(query: string): (lines: seq<string>)
    ensures forall l :: l in lines ==> '\n' !in l && !IsBlank(l)
    ensures forall l :: multiset(lines)[l] == if IsBlank(l) then 0 else multiset(Split(query, '\n'))[l]
    ensures IsSubseq(lines, Split(query, '\n'))
  {
    var parts := Split(query, '\n');
    var lines := Filter(parts, NonBlank);
    LinesOfParts(parts, lines);
    lines
  }

  /** The kept lines are non-blank parts of the split, which hold no line feed. */
  lemma LinesOfParts(parts: seq<string>, lines: seq<string>)
    requires forall i :: 0 <= i < |parts| ==> '\n' !in parts[i]
    requires lines == Filter(parts, NonBlank)
    ensures forall l :: l in lines ==> '\n' !in l
  {
    forall l | l in lines
      ensures '\n' !in l
    {
      assert l in multiset(lines);
      var i :| 0 <= i < |parts| && parts[i] == l;
    }
  }

  /** The first `find` predicate: a species with a photo whose scientific or
      common name equals the trimmed query, ignoring case. */
  predicate ExactHit(b: Bird, query: string)
  {
    var q := Lower(Trim(query));
    && IsSpeciesWithPhoto(b)
    && (Lower(b.name) == q || (b.commonName.Some? && Lower(b.commonName.value) == q))
  }

  /** `topHit || results.find(r => r.rank === "species" && r.default_photo)`
      (src/App.tsx:96-108): the first exact hit when there is one, else the
      first species with a photo, else nothing. */
  function TopHit(candidates: seq<Bird>, query: string): (r: Option<Bird>)
    ensures r.Some? ==> r.value in candidates && IsSpeciesWithPhoto(r.value)
    ensures (exists i :: 0 <= i < |candidates| && ExactHit(candidates[i], query)) ==>
      exists i :: 0 <= i < |candidates| && r == Some(candidates[i]) && ExactHit(candidates[i], query)
        && forall j :: 0 <= j < i ==> !ExactHit(candidates[j], query)
    ensures (forall i :: 0 <= i < |candidates| ==> !ExactHit(candidates[i], query)) && r.Some? ==>
      exists i :: 0 <= i < |candidates| && r == Some(candidates[i])
        && forall j :: 0 <= j < i ==> !IsSpeciesWithPhoto(candidates[j])
    ensures r.None? <==> forall i :: 0 <= i < |candidates| ==> !IsSpeciesWithPhoto(candidates[i])
  {
    var exact := (b: Bird) => ExactHit(b, query);
    var r := match Find(candidates, exact) case Some(b) => Some(b) case None => Find(candidates, IsSpeciesWithPhoto);
    FindOrElse(candidates, exact, IsSpeciesWithPhoto, r);
    r
  }

  /** The value one name's promise settles with. */
  function LineResult(line: string, response: Response): (r: Option<Bird>)
    ensures response.Failed? ==> r.None?
    ensures r.Some? ==> response.Results? && r.value in response.candidates && IsSpeciesWithPhoto(r.value)
    ensures response.Results? ==> (r.None? <==> forall b :: b in response.candidates ==> !IsSpeciesWithPhoto(b))
    ensures response.Results? ==> r == TopHit(response.candidates, line)
  {
    match response
    case Failed => None
    case Results(candidates) => TopHit(candidates, line)
  }

  /** The per-name results, in the order of the names. */
  function PerLine(lines: seq<string>, responses: seq<Response>): (r: seq<Option<Bird>>)
    requires |lines| == |responses|
    ensures |r| == |lines|
    ensures forall i :: 0 <= i < |r| ==> r[i] == LineResult(lines[i], responses[i])
  {
    seq(|lines|, i requires 0 <= i < |lines| => LineResult(lines[i], responses[i]))
  }

  /** `successfulResults` (src/App.tsx:117-123): the present per-name results,
      in input order, each a species with a photo. */
  function SearchResults(lines: seq<string>, responses: seq<Response>): (r: seq<Bird>)
    requires |lines| == |responses|
    ensures |r| <= |lines|
    ensures forall b :: b in r ==> IsSpeciesWithPhoto(b)
    ensures forall b :: multiset(r)[b] == multiset(PerLine(lines, responses))[Some(b)]
    ensures IsSubseq(MapSome(r), PerLine(lines, responses))
  {
    var all := PerLine(lines, responses);
    PresentResultsAreSpecies(all, lines, responses);
    SomesInOrder(all);
    Somes(all)
  }

  /** Every present per-name result is a species with a photo. */
  lemma PresentResultsAreSpecies(all: seq<Option<Bird>>, lines: seq<string>, responses: seq<Response>)
    requires |lines| == |responses| && all == PerLine(lines, responses)
    ensures forall b :: b in Somes(all) ==> IsSpeciesWithPhoto(b)
  {
    forall b | b in Somes(all)
      ensures IsSpeciesWithPhoto(b)
    {
      assert Some(b) in multiset(all);
      var i :| 0 <= i < |all| && all[i] == Some(b);
    }
  }
}
