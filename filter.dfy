/**
 * The comments table's row filter: an exact post-id match combined with a
 * case-insensitive free-text search over all of a record's values.
 */
module Filter {
  import opened Wrappers
  import opened Seqs
  import opened Text
  import opened Records

  /**
   * The two filter inputs. `postId` is `None` while the number box is empty
   * (`!filterTxt`), otherwise the number typed; `search` is the search box's text.
   */
  datatype Query = Query(postId: Option<int>, search: string)

  const NoQuery := Query(None, "")

  /** `Object.values(row).join(" ")`: the text the free-text search looks in. */
  function SearchText(row: Record): string
  {
    Join(seq(|row|, i requires 0 <= i < |row| => DisplayText(Some(row[i].val))), " ")
  }

  predicate MatchesPostId(row: Record, q: Query)
  {
    q.postId.None? || Get(row, "postId") == Some(Num(q.postId.value))
  }

  predicate MatchesSearch(row: Record, q: Query)
  {
    q.search == "" || Includes(ToLower(SearchText(row)), ToLower(q.search))
  }

  /** The predicate `data.filter` applies. */
  predicate Keeps(row: Record, q: Query)
  {
    MatchesPostId(row, q) && MatchesSearch(row, q)
  }

  /** The filtered list of the comments table. */
  function FilterRows(data: seq<Record>, q: Query): (r: seq<Record>)
    ensures |r| <= |data|
    ensures IsSubseq(r, data)
    ensures forall row :: row in r <==> row in data && Keeps(row, q)
    ensures forall row :: multiset(r)[row] == if Keeps(row, q) then multiset(data)[row] else 0
  {
    var keep := row => Keeps(row, q);
    SelectIsSubseq(data, keep);
    SelectMembers(data, keep);
    SelectCount(data, keep);
    Select(data, keep)
  }

  /** With both boxes empty every record is shown, in its order. */
  lemma EmptyQueryKeepsAll(data: seq<Record>)
    ensures FilterRows(data, NoQuery) == data
  {
    SelectAll(data, row => Keeps(row, NoQuery));
  }

  /** The two conditions combine by conjunction: filtering by both is filtering by one, then the other. */
  lemma FilterConjunction(data: seq<Record>, postId: Option<int>, search: string)
    ensures FilterRows(data, Query(postId, search))
         == FilterRows(FilterRows(data, Query(postId, "")), Query(None, search))
  {
    SelectSelect(data, row => Keeps(row, Query(postId, "")), row => Keeps(row, Query(None, search)),
                 row => Keeps(row, Query(postId, search)));
  }

  /** The search ignores ASCII case in the search text. */
  lemma SearchIgnoresCase(row: Record, postId: Option<int>, search: string)
    ensures Keeps(row, Query(postId, search)) == Keeps(row, Query(postId, ToLower(search)))
  {
    ToLowerIdempotent(search);
  }
}
