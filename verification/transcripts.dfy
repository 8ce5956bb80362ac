/**
 * The pure parts of `YouTubeTranscriptDownloader`
 * (listening-comp/backend/get_transcript.py): video-id extraction, the id
 * resolution of `get_transcript`, the path and content `save_transcript`
 * writes, and the result map of `download_playlist_transcripts`. The YouTube
 * Data API, the transcript service and the file system are function parameters.
 */
module Transcripts {
  import opened Wrappers
  import opened Text

  /** One caption line as the transcript service returns it. */
  datatype Entry = Entry(text: string, start: real, duration: real)

  datatype Downloader = Downloader(languages: seq<string>)

  /** A downloader with the default language preference. */
  function NewDownloader(): (d: Downloader)
    ensures d.languages == ["hi", "en"]
  {
    Downloader(["hi", "en"])
  }

  /**
   * `id` is `rest.split(marker)[0][:11]`: a prefix of `rest` in which no
   * `marker` starts, ending at 11 characters, at the end of `rest`, or where
   * the next `marker` starts.
   */
  predicate IdFrom(rest: string, marker: string, id: string) {
    |id| <= 11 && |id| <= |rest| && id == rest[..|id|]
    && (forall j :: 0 <= j < |id| ==> !OccursAt(rest, marker, j))
    && (|id| == 11 || |id| == |rest| || OccursAt(rest, marker, |id|))
  }

  /** `IdFrom` pins the id down: there is exactly one for each `rest`. */
  lemma IdFromUnique(rest: string, marker: string, a: string, b: string)
    requires IdFrom(rest, marker, a) && IdFrom(rest, marker, b)
    ensures a == b
  {
  }

  /**
   * `extract_video_id`: the id after the first "v=" when there is one, else the
   * id after the first "youtu.be/", else None.
   */
  function ExtractVideoId(url: string): (r: Option<string>)
    ensures r.None? <==> !Contains(url, "v=") && !Contains(url, "youtu.be/")
    ensures Contains(url, "v=") ==>
              r.Some? && IdFrom(url[IndexOf(url, "v=").value + 2..], "v=", r.value)
    ensures !Contains(url, "v=") && Contains(url, "youtu.be/") ==>
              r.Some? && IdFrom(url[IndexOf(url, "youtu.be/").value + 9..], "youtu.be/", r.value)
  {
    if Contains(url, "v=") then Some(IdAfter(url, "v="))
    else if Contains(url, "youtu.be/") then Some(IdAfter(url, "youtu.be/"))
    else None
  }

  /** `url.split(marker)[1][:11]` for a `marker` that occurs in `url`. */
  function IdAfter(url: string, marker: string): (r: string)
    requires |marker| > 0 && Contains(url, marker)
    ensures IdFrom(url[IndexOf(url, marker).value + |marker|..], marker, r)
  {
    var piece := SecondPiece(url, marker);
    Take(piece, 11)
  }

  /** A URL ending in "v=" yields an empty id, not None. */
  lemma EmptyIdAfterTrailingMarker()
    ensures ExtractVideoId("watch?v=") == Some("")
  {
    var url := "watch?v=";
    assert url[6..8] == "v=";
    AbsentBefore(url, "v=", 6);
    IndexOfIs(url, "v=", 6);
  }

  /** "v=" wins even when the URL is a short link. */
  lemma QueryMarkerWinsOverShortLink()
    ensures ExtractVideoId("youtu.be/abc?v=xyz") == Some("xyz")
  {
    var rest := "xyz";
    var url := "youtu.be/abc?" + "v=" + rest;
    assert url == "youtu.be/abc?v=xyz";
    assert url[13..15] == "v=" && url[15..] == rest;
    AbsentBefore(url, "v=", 13);
    IndexOfIs(url, "v=", 13);
    AbsentBefore(rest, "v=", |rest|);
    IdFromUnique(rest, "v=", ExtractVideoId(url).value, rest);
  }

  /** An id longer than 11 characters is cut to its first 11. */
  lemma LongIdTruncated()
    ensures ExtractVideoId("watch?v=dQw4w9WgXcQ&t=42") == Some("dQw4w9WgXcQ")
  {
    var rest := "dQw4w9WgXcQ&t=42";
    var url := "watch?" + "v=" + rest;
    assert url == "watch?v=dQw4w9WgXcQ&t=42";
    assert url[6..8] == "v=" && url[8..] == rest;
    AbsentBefore(url, "v=", 6);
    IndexOfIs(url, "v=", 6);
    AbsentBefore(rest, "v=", |rest|);
    assert rest[..11] == "dQw4w9WgXcQ";
    IdFromUnique(rest, "v=", ExtractVideoId(url).value, rest[..11]);
  }

  /**
   * The id `get_transcript` hands to the transcript service, or None when it
   * gives up without calling it. Input naming a YouTube host goes through
   * `ExtractVideoId`; any other input is taken as an id verbatim.
   */
  function TranscriptRequestId(input: string): (r: Option<string>)
    ensures r.Some? ==> r.value != ""
    ensures !Contains(input, "youtube.com") && !Contains(input, "youtu.be") ==>
              (r.None? <==> input == "") && (r.Some? ==> r.value == input)
    ensures Contains(input, "youtube.com") || Contains(input, "youtu.be") ==>
              (r.None? <==> ExtractVideoId(input).None? || ExtractVideoId(input).value == "")
              && (r.Some? ==> r == ExtractVideoId(input))
  {
    var id := if Contains(input, "youtube.com") || Contains(input, "youtu.be") then ExtractVideoId(input) else Some(input);
    if id.None? || id.value == "" then None else id
  }

  /**
   * `get_transcript`: None without a service call when no id results, otherwise
   * whatever the service returns (None standing for a raised exception).
   */
  function GetTranscript(d: Downloader, input: string, fetch: (string, seq<string>) -> Option<seq<Entry>>): (r: Option<seq<Entry>>)
    ensures TranscriptRequestId(input).None? ==> r.None?
    ensures TranscriptRequestId(input).Some? ==> r == fetch(TranscriptRequestId(input).value, d.languages)
  {
    match TranscriptRequestId(input)
    case None => None
    case Some(id) => fetch(id, d.languages)
  }

  /** A plain video id reaches the service unchanged. */
  lemma PlainIdPassedVerbatim(d: Downloader, id: string, fetch: (string, seq<string>) -> Option<seq<Entry>>)
    requires id != ""
    requires !Contains(id, "youtube.com") && !Contains(id, "youtu.be")
    ensures GetTranscript(d, id, fetch) == fetch(id, d.languages)
  {
  }

  /** The file `save_transcript` writes for `name`: ./transcripts/<name>.txt. */
  function TranscriptPath(name: string): (p: string)
    ensures |p| == |name| + 18
    ensures p[..14] == "./transcripts/" && p[|p| - 4..] == ".txt"
    ensures p[14..|p| - 4] == name
  {
    "./transcripts/" + name + ".txt"
  }

  /** The file content: each entry's text followed by a newline, in order. */
  function TranscriptContent(entries: seq<Entry>): (r: string)
    ensures r == "" <==> |entries| == 0
    ensures |entries| > 0 ==> r[|r| - 1] == '\n'
    ensures |entries| > 0 ==> |entries[0].text| < |r| && r[..|entries[0].text|] == entries[0].text
                              && r[|entries[0].text|] == '\n'
  {
    if |entries| == 0 then "" else entries[0].text + "\n" + TranscriptContent(entries[1..])
  }

  /** The texts of the entries, in order. */
  function Texts(entries: seq<Entry>): (r: seq<string>)
    ensures |r| == |entries| && forall i :: 0 <= i < |entries| ==> r[i] == entries[i].text
  {
    if |entries| == 0 then [] else [entries[0].text] + Texts(entries[1..])
  }

  /** Reads newline-terminated lines back; a final unterminated line is kept. */
  function Lines(s: string): seq<string>
    decreases |s|
  {
    if s == "" then []
    else
      match IndexOf(s, "\n")
      case None => [s]
      case Some(i) => [s[..i]] + Lines(s[i + 1..])
  }

  /** The content is the concatenation of the contents of its parts. */
  lemma {:induction false} ContentAppend(a: seq<Entry>, b: seq<Entry>)
    ensures TranscriptContent(a + b) == TranscriptContent(a) + TranscriptContent(b)
  {
    if |a| > 0 {
      assert (a + b)[1..] == a[1..] + b;
      ContentAppend(a[1..], b);
    } else {
      assert a + b == b;
    }
  }

  /** Appending an entry appends its text and one newline: the content of every transcript, entry by entry. */
  lemma ContentSnoc(entries: seq<Entry>, e: Entry)
    ensures TranscriptContent(entries + [e]) == TranscriptContent(entries) + e.text + "\n"
  {
    ContentAppend(entries, [e]);
    assert TranscriptContent([e]) == e.text + "\n" + TranscriptContent([]);
  }

  /** Splitting the content into lines gives back the entries' texts. */
  lemma {:induction false} ContentLinesRoundTrip(entries: seq<Entry>)
    requires forall e :: e in entries ==> '\n' !in e.text
    ensures Lines(TranscriptContent(entries)) == Texts(entries)
  {
    if |entries| > 0 {
      var t := entries[0].text;
      var rest := TranscriptContent(entries[1..]);
      var s := TranscriptContent(entries);
      assert s == t + "\n" + rest;
      assert OccursAt(s, "\n", |t|) by {
        assert s[|t|..|t| + 1] == "\n";
      }
      forall j | 0 <= j < |t| ensures !OccursAt(s, "\n", j) {
        assert s[j] == t[j];
        assert s[j..j + 1][0] == s[j];
      }
      assert IndexOf(s, "\n") == Some(|t|);
      assert s[..|t|] == t;
      assert s[|t| + 1..] == rest;
      ContentLinesRoundTrip(entries[1..]);
    }
  }

  /** The one file a save writes: where it goes and what it holds. */
  datatype FileWrite = FileWrite(path: string, content: string)

  /**
   * `save_transcript`: writes ./transcripts/<name>.txt with one line per entry
   * text; the flag is False when the write fails (`write` says whether it does).
   */
  function SaveTranscript(entries: seq<Entry>, name: string, write: (string, string) -> bool): (r: (FileWrite, bool))
    ensures |r.0.path| == |name| + 18
    ensures r.0.path[..14] == "./transcripts/" && r.0.path[|r.0.path| - 4..] == ".txt"
    ensures r.0.path[14..|r.0.path| - 4] == name
    ensures (forall e :: e in entries ==> '\n' !in e.text) ==> Lines(r.0.content) == Texts(entries)
    ensures r.0.content == "" <==> |entries| == 0
    ensures |entries| > 0 ==> r.0.content[|r.0.content| - 1] == '\n'
    ensures r.0.content == TranscriptContent(entries)
    ensures r.1 == write(r.0.path, r.0.content)
  {
    var w := FileWrite(TranscriptPath(name), TranscriptContent(entries));
    assert (forall e :: e in entries ==> '\n' !in e.text) ==> Lines(w.content) == Texts(entries) by {
      if forall e :: e in entries ==> '\n' !in e.text {
        ContentLinesRoundTrip(entries);
      }
    }
    (w, write(w.path, w.content))
  }

  /** A transcript counts as obtained when it is present and non-empty (Python truthiness). */
  predicate Obtained(t: Option<seq<Entry>>) {
    t.Some? && |t.value| > 0
  }

  /**
   * The status one video gets in the playlist results: False when no transcript
   * was obtained, otherwise whether saving it under the id succeeded.
   */
  function Outcome(d: Downloader, id: string, fetch: (string, seq<string>) -> Option<seq<Entry>>,
                   write: (string, string) -> bool): (r: bool)
    ensures !Obtained(GetTranscript(d, id, fetch)) ==> !r
    ensures Obtained(GetTranscript(d, id, fetch)) ==>
              (r <==> write(TranscriptPath(id), TranscriptContent(GetTranscript(d, id, fetch).value)))
  {
    var t := GetTranscript(d, id, fetch);
    if Obtained(t) then SaveTranscript(t.value, id, write).1 else false
  }

  /**
   * `download_playlist_transcripts`: one key per listed video id, mapped to its
   * `Outcome`. `listVideos` stands for `get_playlist_video_ids`; None means the
   * listing raised, which this method does not catch, so no results come back.
   */
  method DownloadPlaylistTranscripts(
    d: Downloader,
    playlistUrl: string,
    listVideos: string -> Option<seq<string>>,
    fetch: (string, seq<string>) -> Option<seq<Entry>>,
    write: (string, string) -> bool)
    returns (results: Option<map<string, bool>>)
    ensures results.None? <==> listVideos(playlistUrl).None?
    ensures results.Some? ==> forall id :: id in results.value <==> id in listVideos(playlistUrl).value
    ensures results.Some? ==> forall id :: id in results.value && !Obtained(GetTranscript(d, id, fetch)) ==>
              !results.value[id]
    ensures results.Some? ==> forall id :: id in results.value && Obtained(GetTranscript(d, id, fetch)) ==>
              (results.value[id] <==> write(TranscriptPath(id), TranscriptContent(GetTranscript(d, id, fetch).value)))
  {
    var listed := listVideos(playlistUrl);
    if listed.None? {
      return None;
    }
    var videoIds := listed.value;
    var statuses: map<string, bool> := map[];
    var i := 0;
    while i < |videoIds|
      invariant 0 <= i <= |videoIds|
      invariant forall id :: id in statuses <==> id in videoIds[..i]
      invariant forall id :: id in statuses ==> statuses[id] == Outcome(d, id, fetch, write)
    {
      var id := videoIds[i];
      statuses := statuses[id := Outcome(d, id, fetch, write)];
      assert videoIds[..i + 1] == videoIds[..i] + [id];
      i := i + 1;
    }
    assert videoIds[..i] == videoIds;
    results := Some(statuses);
  }
}
