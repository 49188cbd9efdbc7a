/** The playlist script `criar_playlist.py`: cleaning the lines of the song file, splitting the titles
    into found tracks and titles not found, and adding the found tracks in calls of at most 100. */
module Playlist {
  import opened Text
  import opened Seqs

  // ---------------------------------------------------------------------------------------------
  // Reading the song file

  /** `[line.strip() for line in lines if line.strip()]`: every line stripped, blank lines dropped. */
  function CleanLines(lines: seq<string>): (titles: seq<string>)
    ensures |titles| <= |lines|
    ensures forall i :: 0 <= i < |titles| ==> titles[i] != []
  {
    if lines == [] then []
    else
      var title := Strip(lines[|lines| - 1]);
      CleanLines(lines[..|lines| - 1]) + if title == [] then [] else [title]
  }

  /** Every title is a stripped line: it neither starts nor ends with whitespace. */
  lemma {:induction false} CleanLinesStripped(lines: seq<string>, i: nat)
    requires i < |CleanLines(lines)|
    ensures var t := CleanLines(lines)[i]; !IsSpace(t[0]) && !IsSpace(t[|t| - 1])
    decreases |lines|
  {
    var init := lines[..|lines| - 1];
    if i < |CleanLines(init)| {
      CleanLinesStripped(init, i);
    }
  }

  /** Cleaning is done line by line: the lines of two halves clean to the titles of each half. */
  lemma {:induction false} CleanLinesAppend(a: seq<string>, b: seq<string>)
    ensures CleanLines(a + b) == CleanLines(a) + CleanLines(b)
    decreases |b|
  {
    if b == [] {
      assert a + b == a;
    } else {
      var b' := b[..|b| - 1];
      assert (a + b)[..|a + b| - 1] == a + b';
      assert (a + b)[|a + b| - 1] == b[|b| - 1];
      CleanLinesAppend(a, b');
    }
  }

  /** Cleaning titles again changes nothing. */
  lemma {:induction false} CleanLinesIdempotent(lines: seq<string>)
    ensures CleanLines(CleanLines(lines)) == CleanLines(lines)
    decreases |lines|
  {
    if lines != [] {
      var init := lines[..|lines| - 1];
      var title := Strip(lines[|lines| - 1]);
      var tail: seq<string> := if title == [] then [] else [title];
      CleanLinesIdempotent(init);
      CleanLinesAppend(CleanLines(init), tail);
      if title != [] {
        TrimIdempotent(lines[|lines| - 1], Whitespace);
        assert [title][..0] == [];
      }
    }
  }

  /** No title results (and the reader returns `[]`) exactly when every line is blank. */
  lemma {:induction false} CleanLinesEmpty(lines: seq<string>)
    ensures CleanLines(lines) == [] <==> forall i :: 0 <= i < |lines| ==> Strip(lines[i]) == []
    decreases |lines|
  {
    if lines != [] {
      var init := lines[..|lines| - 1];
      CleanLinesEmpty(init);
      TrimEmpty(lines[|lines| - 1], Whitespace);
      if Strip(lines[|lines| - 1]) == [] {
        assert forall i :: 0 <= i < |init| ==> init[i] == lines[i];
      }
    }
  }

  // ---------------------------------------------------------------------------------------------
  // Searching the titles

  /** What `sp.search(q=title, type='track', limit=1)` gave: the URI of the first track, no track,
      or an exception (a failing call or a result without the expected fields). */
  datatype SearchReply = FirstTrack(uri: string) | NoTracks | SearchFailed

  /** What became of one title. */
  datatype Outcome = Hit(uri: string) | Miss(title: string)

  /** Only the first track counts; an empty result and an exception both leave the title not found. */
  function Classify(title: string, reply: SearchReply): (o: Outcome)
    ensures o.Hit? <==> reply.FirstTrack?
    ensures o.Hit? ==> o.uri == reply.uri
    ensures o.Miss? ==> o.title == title
  {
    match reply
    case FirstTrack(uri) => Hit(uri)
    case NoTracks => Miss(title)
    case SearchFailed => Miss(title)
  }

  /** The outcome of every title, in order; `replies[i]` is the reply to the search for `titles[i]`. */
  function Outcomes(titles: seq<string>, replies: seq<SearchReply>): seq<Outcome>
    requires |replies| == |titles|
  {
    seq(|titles|, i requires 0 <= i < |titles| => Classify(titles[i], replies[i]))
  }

  /** The URIs of the hits, in order. */
  function Hits(os: seq<Outcome>): seq<string>
  {
    if os == [] then []
    else Hits(os[..|os| - 1]) + if os[|os| - 1].Hit? then [os[|os| - 1].uri] else []
  }

  /** The titles missed, in order. */
  function Misses(os: seq<Outcome>): seq<string>
  {
    if os == [] then []
    else Misses(os[..|os| - 1]) + if os[|os| - 1].Miss? then [os[|os| - 1].title] else []
  }

  /** Every title lands in exactly one of the two lists. */
  lemma {:induction false} PartitionCount(os: seq<Outcome>)
    ensures |Hits(os)| + |Misses(os)| == |os|
    decreases |os|
  {
    if os != [] {
      PartitionCount(os[..|os| - 1]);
    }
  }

  /** Every hit's URI is in the list of hits. */
  lemma {:induction false} HitsKeepAll(os: seq<Outcome>)
    ensures forall i :: 0 <= i < |os| && os[i].Hit? ==> os[i].uri in Hits(os)
    decreases |os|
  {
    if os != [] {
      var init := os[..|os| - 1];
      HitsKeepAll(init);
      assert forall i :: 0 <= i < |init| ==> init[i] == os[i];
    }
  }

  /** Every miss's title is in the list of misses. */
  lemma {:induction false} MissesKeepAll(os: seq<Outcome>)
    ensures forall i :: 0 <= i < |os| && os[i].Miss? ==> os[i].title in Misses(os)
    decreases |os|
  {
    if os != [] {
      var init := os[..|os| - 1];
      MissesKeepAll(init);
      assert forall i :: 0 <= i < |init| ==> init[i] == os[i];
    }
  }

  /** Interleaves hits and misses back, taking the next of either list as the outcomes in `shape` say. */
  function Merge(shape: seq<Outcome>, hits: seq<string>, misses: seq<string>): seq<Outcome>
  {
    if shape == [] then []
    else if shape[0].Hit? then
      if hits == [] then [] else [Hit(hits[0])] + Merge(shape[1..], hits[1..], misses)
    else
      if misses == [] then [] else [Miss(misses[0])] + Merge(shape[1..], hits, misses[1..])
  }

  lemma HitsCons(o: Outcome, os: seq<Outcome>)
    ensures Hits([o] + os) == (if o.Hit? then [o.uri] else []) + Hits(os)
    decreases |os|
  {
    if os == [] {
      assert [o] + os == [o];
      assert [o][..0] == [];
    } else {
      var init := os[..|os| - 1];
      assert ([o] + os)[..|os|] == [o] + init;
      HitsCons(o, init);
    }
  }

  lemma MissesCons(o: Outcome, os: seq<Outcome>)
    ensures Misses([o] + os) == (if o.Miss? then [o.title] else []) + Misses(os)
    decreases |os|
  {
    if os == [] {
      assert [o] + os == [o];
      assert [o][..0] == [];
    } else {
      var init := os[..|os| - 1];
      assert ([o] + os)[..|os|] == [o] + init;
      MissesCons(o, init);
    }
  }

  /** Splitting into the two lists loses nothing and keeps the order: merging them back rebuilds the
      outcome of every title. */
  lemma {:induction false} PartitionLossless(os: seq<Outcome>)
    ensures Merge(os, Hits(os), Misses(os)) == os
    decreases |os|
  {
    if os != [] {
      var o, rest := os[0], os[1..];
      assert os == [o] + rest;
      HitsCons(o, rest);
      MissesCons(o, rest);
      PartitionLossless(rest);
      if o.Hit? {
        assert Hits(os) == [o.uri] + Hits(rest);
        assert Misses(os) == Misses(rest);
        assert Merge(os, Hits(os), Misses(os)) == [Hit(o.uri)] + Merge(rest, Hits(rest), Misses(rest));
      } else {
        assert Hits(os) == Hits(rest);
        assert Misses(os) == [o.title] + Misses(rest);
        assert Merge(os, Hits(os), Misses(os)) == [Miss(o.title)] + Merge(rest, Hits(rest), Misses(rest));
      }
    }
  }

  /** `buscar_musicas_spotify(sp, titles)`: one search per title, in order; the loop goes on after a
      search that fails. */
  method SearchTracks(titles: seq<string>, replies: seq<SearchReply>) returns (found: seq<string>, notFound: seq<string>)
    requires |replies| == |titles|
    ensures found == Hits(Outcomes(titles, replies))
    ensures notFound == Misses(Outcomes(titles, replies))
    ensures |found| + |notFound| == |titles|
    ensures forall i :: 0 <= i < |titles| && replies[i].FirstTrack? ==> replies[i].uri in found
    ensures forall i :: 0 <= i < |titles| && !replies[i].FirstTrack? ==> titles[i] in notFound
  {
    found, notFound := [], [];
    ghost var os := Outcomes(titles, replies);
    for i := 0 to |titles|
      invariant found == Hits(os[..i])
      invariant notFound == Misses(os[..i])
    {
      assert os[..i + 1][..i] == os[..i];
      match replies[i]
      case FirstTrack(uri) =>
        found := found + [uri];
      case NoTracks =>
        notFound := notFound + [titles[i]];
      case SearchFailed =>
        notFound := notFound + [titles[i]];
    }
    assert os[..|titles|] == os;
    PartitionCount(os);
    HitsKeepAll(os);
    MissesKeepAll(os);
    assert forall i :: 0 <= i < |titles| ==> os[i] == Classify(titles[i], replies[i]);
  }

  /** Two titles, the first of which fails to search: the second is still searched and found. */
  lemma SearchExample()
    ensures var os := Outcomes(["Song A", "Song B"], [SearchFailed, FirstTrack("spotify:track:2")]);
      Hits(os) == ["spotify:track:2"] && Misses(os) == ["Song A"]
  {
    var os := Outcomes(["Song A", "Song B"], [SearchFailed, FirstTrack("spotify:track:2")]);
    assert os == [Miss("Song A"), Hit("spotify:track:2")];
    assert os[..1] == [Miss("Song A")];
    assert os[..1][..0] == [];
  }

  // ---------------------------------------------------------------------------------------------
  // Adding the tracks

  /** The most tracks one `playlist_add_items` call accepts. */
  const MaxTracksPerCall: nat := 100

  /** The slices `uris[i:i + 100]` for `i` in `range(0, len(uris), 100)`. */
  function Batches(uris: seq<string>): seq<seq<string>>
    decreases |uris|
  {
    if uris == [] then []
    else if |uris| <= MaxTracksPerCall then [uris]
    else [uris[..MaxTracksPerCall]] + Batches(uris[MaxTracksPerCall..])
  }

  /** Sending the batches in order sends every URI once, in order. */
  lemma {:induction false} BatchesConcat(uris: seq<string>)
    ensures Concat(Batches(uris)) == uris
    decreases |uris|
  {
    if uris == [] {
    } else if |uris| <= MaxTracksPerCall {
      ConcatCons(uris, []);
    } else {
      BatchesConcat(uris[MaxTracksPerCall..]);
      ConcatCons(uris[..MaxTracksPerCall], Batches(uris[MaxTracksPerCall..]));
      assert uris[..MaxTracksPerCall] + uris[MaxTracksPerCall..] == uris;
    }
  }

  /** There are `ceil(n / 100)` batches; all hold 100 URIs except the last, which holds 1 to 100. */
  lemma {:induction false} BatchesSizes(uris: seq<string>)
    ensures |Batches(uris)| == (|uris| + MaxTracksPerCall - 1) / MaxTracksPerCall
    ensures forall j :: 0 <= j < |Batches(uris)| - 1 ==> |Batches(uris)[j]| == MaxTracksPerCall
    ensures uris != [] ==> 1 <= |Batches(uris)[|Batches(uris)| - 1]| <= MaxTracksPerCall
    decreases |uris|
  {
    if |uris| > MaxTracksPerCall {
      var rest := uris[MaxTracksPerCall..];
      BatchesSizes(rest);
      assert Batches(uris)[1..] == Batches(rest);
    }
  }

  /** Batch `j` is the slice starting at `100 * j`. */
  lemma {:induction false} BatchAt(uris: seq<string>, j: nat)
    requires j < |Batches(uris)|
    ensures MaxTracksPerCall * j < |uris|
    ensures Batches(uris)[j] == uris[MaxTracksPerCall * j..Min(MaxTracksPerCall * j + MaxTracksPerCall, |uris|)]
    decreases |uris|
  {
    if j > 0 {
      var rest := uris[MaxTracksPerCall..];
      BatchAt(rest, j - 1);
      assert MaxTracksPerCall * j == MaxTracksPerCall * (j - 1) + MaxTracksPerCall;
    }
  }

  /** 250 URIs go in three calls of 100, 100 and 50. */
  lemma TwoHundredFiftyExample(uris: seq<string>)
    requires |uris| == 250
    ensures |Batches(uris)| == 3
    ensures |Batches(uris)[0]| == 100 && |Batches(uris)[1]| == 100 && |Batches(uris)[2]| == 50
  {
    var r1 := uris[100..];
    var r2 := r1[100..];
    assert Batches(uris) == [uris[..100]] + Batches(r1);
    assert Batches(r1) == [r1[..100]] + Batches(r2);
    assert Batches(r2) == [r2];
  }

  /** How `adicionar_musicas_playlist` ends: nothing to add, every batch added, or stopped by the
      exception of one call. */
  datatype AddResult = NothingToAdd | AllAdded | Stopped

  /** `adicionar_musicas_playlist(sp, playlist_id, uris)`: one call per batch, in order; the calls
      numbered in `failing` (from 0) raise, and the first that raises ends the loop. Returns the
      batches sent, the failing one included. */
  method AddTracks(uris: seq<string>, failing: set<nat>) returns (calls: seq<seq<string>>, result: AddResult)
    ensures result == NothingToAdd <==> uris == []
    ensures uris == [] ==> calls == []
    ensures |calls| <= |Batches(uris)| && calls == Batches(uris)[..|calls|]
    ensures forall j :: 0 <= j < |calls| - 1 ==> j !in failing
    ensures result == AllAdded ==> calls == Batches(uris) && |calls| - 1 !in failing
    ensures result == Stopped ==> calls != [] && |calls| - 1 in failing
  {
    if uris == [] {
      return [], NothingToAdd;
    }
    calls := [];
    var i: nat := 0;
    result := AllAdded;
    while i < |uris|
      invariant Batches(uris) == calls + Batches(uris[Min(i, |uris|)..])
      invariant forall j :: 0 <= j < |calls| ==> j !in failing
      decreases |uris| - i
    {
      var next := Min(i + MaxTracksPerCall, |uris|);
      var batch := uris[i..next];
      var rest := Batches(uris[next..]);
      BatchesFrom(uris, i);
      assert Batches(uris[Min(i, |uris|)..]) == [batch] + rest;
      assert calls + ([batch] + rest) == (calls + [batch]) + rest;
      calls := calls + [batch];
      if |calls| - 1 in failing {
        result := Stopped;
        PrefixOfBatches(uris, calls, rest);
        return;
      }
      i := i + MaxTracksPerCall;
      assert Min(i, |uris|) == next;
    }
    assert uris[|uris|..] == [];
    PrefixOfBatches(uris, calls, []);
  }

  /** The batches from position `i` on: the slice at `i`, then the batches after it. */
  lemma BatchesFrom(uris: seq<string>, i: nat)
    requires i < |uris|
    ensures Batches(uris[i..]) == [uris[i..Min(i + MaxTracksPerCall, |uris|)]] + Batches(uris[Min(i + MaxTracksPerCall, |uris|)..])
  {
    var rest := uris[i..];
    if |rest| > MaxTracksPerCall {
      assert rest[MaxTracksPerCall..] == uris[i + MaxTracksPerCall..];
      assert rest[..MaxTracksPerCall] == uris[i..i + MaxTracksPerCall];
    } else {
      assert uris[|uris|..] == [];
      assert rest == uris[i..|uris|];
    }
  }

  lemma PrefixOfBatches(uris: seq<string>, calls: seq<seq<string>>, rest: seq<seq<string>>)
    requires Batches(uris) == calls + rest
    ensures |calls| <= |Batches(uris)| && calls == Batches(uris)[..|calls|]
  {
    assert (calls + rest)[..|calls|] == calls;
  }
}
