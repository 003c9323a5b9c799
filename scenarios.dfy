/** Concrete runs of the model on small inputs. */
module Scenarios {
  import opened Wrappers
  import Catalog
  import opened Dedup
  import opened View
  import opened Pagination
  import opened IntParsing
  import opened Callback

  function Item(id: string, name: string, tracks: int): Catalog.Playlist {
    Catalog.Playlist(id, name, tracks, "owner", 0, Catalog.PlaceholderImage, Catalog.NoLink)
  }

  /** Of two playlists with the same id, the first one is kept, in place. */
  lemma FirstOccurrenceKept()
    ensures RemoveDuplicates([Item("1", "a", 1), Item("2", "b", 2), Item("1", "c", 3)], Catalog.PlaylistId)
         == [Item("1", "a", 1), Item("2", "b", 2)]
  {
    var a, b, c := Item("1", "a", 1), Item("2", "b", 2), Item("1", "c", 3);
    var xs := [a, b, c];
    assert xs[..2] == [a, b] && [a, b][..1] == [a] && [a][..0] == [];
    IdsSnoc([], a, Catalog.PlaylistId);
    assert [] + [a] == [a];
    IdsSnoc([a], b, Catalog.PlaylistId);
    assert [a] + [b] == [a, b];
  }

  /** The search ignores case: "Rock" finds "rock anthems". */
  lemma SearchIgnoresCase()
    ensures Matches(Item("1", "rock anthems", 10), "Rock")
  {
    assert Lower("Rock") == "rock";
    assert Lower("rock anthems")[..4] == "rock";
  }

  /** 45 playlists make three pages of 20, 20 and 5. */
  lemma FortyFiveItems<T>(xs: seq<T>)
    requires |xs| == 45
    ensures TotalPages(|xs|) == 3
    ensures |PageOf(xs, 0)| == 20 && |PageOf(xs, 1)| == 20 && |PageOf(xs, 2)| == 5
    ensures PageOf(xs, 3) == []
  {
  }

  /** 25 pages with the first one current: three anchors, an ellipsis, three anchors. */
  lemma ButtonsAtStart()
    ensures PageButtons(25, 0) ==
      [Page(0), Page(1), Page(2), Ellipsis(false), Page(22), Page(23), Page(24)]
  {
  }

  /** 25 pages with page 12 current: the window 11, 12, 13 between two ellipses. */
  lemma ButtonsInMiddle()
    ensures PageButtons(25, 12) ==
      [Page(0), Page(1), Page(2), Ellipsis(true), Page(11), Page(12), Page(13),
       Ellipsis(false), Page(22), Page(23), Page(24)]
  {
  }

  /** With 10 pages, typing 0 or 11 requests nothing and typing 10 requests the last page. */
  lemma JumpBounds()
    ensures JumpTarget(DecimalString(0), 10) == None
    ensures JumpTarget(DecimalString(11), 10) == None
    ensures JumpTarget(DecimalString(10), 10) == Some(9)
  {
    assert DecimalString(0) + [] == DecimalString(0);
    JumpToTypedPage(0, [], 10);
    assert DecimalString(11) + [] == DecimalString(11);
    JumpToTypedPage(11, [], 10);
    assert DecimalString(10) + [] == DecimalString(10);
    JumpToTypedPage(10, [], 10);
  }

  /** The token is read from the redirect fragment; the other parameters are ignored. */
  lemma TokenFromRedirect()
    ensures ExtractToken(Fragment([("access_token", "abc"), ("token_type", "Bearer")])) == Some("abc")
  {
    var params := [("access_token", "abc"), ("token_type", "Bearer")];
    ExtractFromParameters(params);
    assert Keys(params) == ["access_token", "token_type"];
    assert StartsWith(Keys(params)[0], TokenKey);
  }
}
