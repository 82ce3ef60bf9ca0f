/** The species record the component keeps in its list: the fields of a
    species-autocomplete result that the code reads. */
module Species {
  import opened Seqs

  type Id = int

  /** `default_photo`: only `medium_url` is read, and it may be missing. */
  datatype Photo = Photo(mediumUrl: Option<string>)

  /** A species record: `id`, scientific `name`, optional
      `preferred_common_name`, optional `default_photo` and taxonomic `rank`. */
  datatype Bird = Bird(id: Id, name: string, commonName: Option<string>, photo: Option<Photo>, rank: string)

  /** `preferred_common_name || name`: JavaScript's `||` also falls back when
      the common name is the empty string. */
  function DisplayName(b: Bird): (r: string)
    ensures b.commonName.Some? && b.commonName.value != "" ==> r == b.commonName.value
    ensures b.commonName.None? || b.commonName == Some("") ==> r == b.name
    ensures r == b.name || (b.commonName == Some(r) && r != "")
  {
    match b.commonName
    case Some(c) => if c != "" then c else b.name
    case None => b.name
  }

  /** `default_photo?.medium_url`. */
  function PhotoUrl(b: Bird): Option<string>
  {
    match b.photo
    case Some(p) => p.mediumUrl
    case None => None
  }

  /** `r.rank === "species" && r.default_photo`. */
  predicate IsSpeciesWithPhoto(b: Bird)
  {
    b.rank == "species" && b.photo.Some?
  }

  /** `list.some(b => b.id === id)`. */
  predicate HasId(s: seq<Bird>, id: Id)
  {
    exists b :: b in s && b.id == id
  }

  /** No two entries share an identifier. */
  ghost predicate UniqueIds(s: seq<Bird>)
  {
    forall i, j :: 0 <= i < j < |s| ==> s[i].id != s[j].id
  }

  /** `list.filter(b => b.id !== id)`: no entry with `id` is left, every other
      entry is kept with its multiplicity, and the relative order is kept. */
  function WithoutId(s: seq<Bird>, id: Id): (r: seq<Bird>)
    ensures !HasId(r, id)
    ensures forall b: Bird :: b.id != id ==> multiset(r)[b] == multiset(s)[b]
    ensures IsSubseq(r, s)
  {
    Filter(s, (b: Bird) => b.id != id)
  }

  /** Filtering by id, one element at a time. */
  lemma WithoutIdCons(x: Bird, s: seq<Bird>, id: Id)
    ensures WithoutId([x] + s, id) == (if x.id != id then [x] else []) + WithoutId(s, id)
  {
    assert ([x] + s)[1..] == s;
  }

  /** An entry with another identifier stays in front of the filtered rest. */
  lemma WithoutIdKeep(x: Bird, s: seq<Bird>, rest: seq<Bird>, id: Id)
    requires x.id != id && WithoutId(s, id) == rest
    ensures WithoutId([x] + s, id) == [x] + rest
  {
    WithoutIdCons(x, s, id);
  }

  /** An entry with the identifier is dropped. */
  lemma WithoutIdDrop(x: Bird, s: seq<Bird>, rest: seq<Bird>, id: Id)
    requires x.id == id && WithoutId(s, id) == rest
    ensures WithoutId([x] + s, id) == rest
  {
    WithoutIdCons(x, s, id);
  }

  /** In a list with unique identifiers, removing the identifier of one entry
      removes exactly that entry. */
  lemma {:induction false} WithoutIdUnique(s: seq<Bird>, i: nat)
    requires i < |s| && UniqueIds(s)
    ensures |WithoutId(s, s[i].id)| == |s| - 1
  {
    var id := s[i].id;
    var p := (b: Bird) => b.id != id;
    assert s == [s[0]] + s[1..];
    assert UniqueIds(s[1..]);
    if i == 0 {
      assert forall b :: b in s[1..] ==> b.id != id;
      assert Filter(s[1..], p) == s[1..] by {
        FilterKeepsAll(s[1..], p);
      }
    } else {
      WithoutIdUnique(s[1..], i - 1);
      assert s[1..][i - 1] == s[i];
      assert s[0].id != id;
    }
  }

  /** Filtering by a predicate every element satisfies changes nothing. */
  lemma {:induction false} FilterKeepsAll(s: seq<Bird>, p: Bird -> bool)
    requires forall b :: b in s ==> p(b)
    ensures Filter(s, p) == s
  {
    if s != [] {
      assert forall b :: b in s[1..] ==> b in s;
      FilterKeepsAll(s[1..], p);
      assert [s[0]] + s[1..] == s;
    }
  }
}
