/**
Log extraction from a downloaded body: a zip archive of files, or plain text. The bytes
are capped, but a file header is written whole once there is room for its first byte.
*/
module Archive {
  import opened Regex
  import opened Transport

  const ONE_MIB: nat := 0x10_0000

  /** A file of the archive: whether it opens, and after how many bytes reading it fails, if ever. */
  datatype Entry = Entry(name: string, contents: string, opens: bool, failsAt: Option<nat>)

  /** What the downloaded bytes turn out to be. */
  datatype Body = Plain(text: string) | Zip(entries: seq<Entry>, raw: string)

  datatype Text = Extracted(text: string) | ReadFailed | EmptyArchive

  function Header(name: string): string { "\n===== " + name + " =====\n" }

  predicate IsDirectory(e: Entry) { e.name != "" && e.name[|e.name| - 1] == '/' }

  predicate Shown(e: Entry) { !IsDirectory(e) && e.opens }

  /** Everything there is to extract: header and contents of each file that opens. */
  function Full(entries: seq<Entry>): string {
    if entries == [] then ""
    else
      var e := entries[|entries| - 1];
      Full(entries[..|entries| - 1]) + (if Shown(e) then Header(e.name) + e.contents else "")
  }

  function Limit(maxBytes: int): nat { if maxBytes <= 0 then ONE_MIB else maxBytes }

  function Prefix(s: string, n: int): string {
    if n <= 0 then "" else if n < |s| then s[..n] else s
  }

  /** Reading file `i` is reached with some room left, and fails before the room is used up. */
  predicate ReadFails(entries: seq<Entry>, limit: nat, i: nat) {
    && i < |entries| && Shown(entries[i]) && entries[i].failsAt.Some?
    && |Full(entries[..i])| + |Header(entries[i].name)| + entries[i].failsAt.value < limit
    && entries[i].failsAt.value <= |entries[i].contents|
  }

  /** The header of file `i` is the last thing written, and may exceed the limit. */
  predicate HeaderLast(entries: seq<Entry>, limit: nat, i: nat) {
    && i < |entries| && Shown(entries[i])
    && |Full(entries[..i])| < limit <= |Full(entries[..i])| + |Header(entries[i].name)|
  }

  lemma {:induction false} FullPrefix(entries: seq<Entry>, i: nat)
    requires i <= |entries|
    ensures Full(entries[..i]) <= Full(entries)
  {
    if i == |entries| {
      assert entries[..i] == entries;
    } else {
      FullPrefix(entries[..|entries| - 1], i);
      assert entries[..|entries| - 1][..i] == entries[..i];
    }
  }

  lemma FullGrows(entries: seq<Entry>, i: nat, j: nat)
    requires i <= j <= |entries|
    ensures |Full(entries[..i])| <= |Full(entries[..j])|
  {
    FullPrefix(entries[..j], i);
    assert entries[..j][..i] == entries[..i];
  }

  lemma FullStep(entries: seq<Entry>, i: nat)
    requires i < |entries|
    ensures Full(entries[..i + 1]) == Full(entries[..i]) + (if Shown(entries[i]) then Header(entries[i].name) + entries[i].contents else "")
    ensures Full(entries[..i + 1]) <= Full(entries)
  {
    assert entries[..i + 1][..i] == entries[..i];
    FullPrefix(entries, i + 1);
  }

  /** The text after files `0..i` when nothing was cut and nothing failed. */
  ghost predicate Copied(entries: seq<Entry>, limit: nat, i: nat, buf: string) {
    && i <= |entries| && buf == Full(entries[..i]) && |buf| < limit
    && forall k :: 0 <= k < i ==> !ReadFails(entries, limit, k)
  }

  /** The extraction ended within file `i`. */
  ghost predicate CutAt(entries: seq<Entry>, limit: nat, i: nat, text: string) {
    && text <= Full(entries) && limit <= |text|
    && (forall k :: 0 <= k < |entries| ==> !ReadFails(entries, limit, k))
    && Capped(entries, limit, text)
  }

  /** The text is cut at the limit, except that a header reached within it is written whole. */
  ghost predicate Capped(entries: seq<Entry>, limit: nat, text: string) {
    && (forall k: nat :: HeaderLast(entries, limit, k) ==> text == Full(entries[..k]) + Header(entries[k].name))
    && ((forall k: nat :: !HeaderLast(entries, limit, k)) ==> text == Prefix(Full(entries), limit))
  }

  method UnzipOrText(body: Body, maxBytes: int) returns (r: Text)
    ensures body.Plain? ==> r == Extracted(Prefix(body.text, Limit(maxBytes)))
    ensures body.Zip? ==> IsCopy(body.entries, Limit(maxBytes), r)
  {
    hide IsCopy;
    var limit := Limit(maxBytes);
    if body.Plain? {
      if |body.text| > limit {
        return Extracted(body.text[..limit]);
      }
      return Extracted(body.text);
    }
    r := CopyFiles(body.entries, limit);
  }

  /** The outcome of extracting the files. */
  ghost predicate IsCopy(entries: seq<Entry>, limit: nat, r: Text) {
    var full := Full(entries);
    // a read fails exactly when some file fails before the room is used up
    && (r == ReadFailed <==> exists i: nat :: ReadFails(entries, limit, i))
    && (r == EmptyArchive ==> full == "")
    && (r.Extracted? ==> full != "" && r.text <= full && (|r.text| < limit ==> r.text == full))
    // the text is determined, in the one case where it may exceed the limit too
    && (r.Extracted? ==> Capped(entries, limit, r.text))
  }

  /** The loop over the files of the archive. */
  method CopyFiles(entries: seq<Entry>, limit: nat) returns (r: Text)
    requires limit > 0
    ensures IsCopy(entries, limit, r)
  {
    var buf := "";
    StartCopy(entries, limit);
    hide *;
    for i := 0 to |entries|
      invariant Copied(entries, limit, i, buf)
    {
      var file := entries[i];
      CopyStep(entries, limit, i, buf);
      if file.name != "" && file.name[|file.name| - 1] == '/' { continue; }
      if limit - |buf| <= 0 { break; }
      if !file.opens { continue; }
      buf := buf + Header(file.name);
      var remaining := limit - |buf|;
      if remaining <= 0 {
        CutResult(entries, limit, i, buf);
        return Extracted(buf);
      }
      if file.failsAt.Some? && file.failsAt.value < remaining && file.failsAt.value <= |file.contents| {
        FailResult(entries, limit, i);
        return ReadFailed;
      }
      buf := buf + Prefix(file.contents, remaining);
      if |buf| >= limit {
        CutResult(entries, limit, i, buf);
        return Extracted(buf);
      }
    }
    CopyEnds(entries, limit, |entries|, buf);
    if |buf| == 0 {
      return EmptyArchive;
    }
    r := Extracted(buf);
  }

  lemma StartCopy(entries: seq<Entry>, limit: nat)
    requires limit > 0
    ensures Copied(entries, limit, 0, "")
  {
  }

  /** What processing file `i` does to the text copied so far. */
  lemma CopyStep(entries: seq<Entry>, limit: nat, i: nat, buf: string)
    requires i < |entries| && Copied(entries, limit, i, buf)
    ensures |buf| < limit
    ensures var e := entries[i];
            var directory := e.name != "" && e.name[|e.name| - 1] == '/';
            var headed := buf + Header(e.name);
            var remaining := limit - |headed|;
            var fails := e.failsAt.Some? && e.failsAt.value < remaining && e.failsAt.value <= |e.contents|;
            var copied := headed + Prefix(e.contents, remaining);
            && (directory || !e.opens ==> Copied(entries, limit, i + 1, buf))
            && (!directory && e.opens && remaining <= 0 ==> CutAt(entries, limit, i, headed))
            && (!directory && e.opens && remaining > 0 && fails ==> ReadFails(entries, limit, i))
            && (!directory && e.opens && remaining > 0 && !fails && |copied| >= limit ==> CutAt(entries, limit, i, copied))
            && (!directory && e.opens && remaining > 0 && !fails && |copied| < limit ==> Copied(entries, limit, i + 1, copied))
  {
    var e := entries[i];
    FullStep(entries, i);
    if Shown(e) {
      hide Header, Full;
      var headed := buf + Header(e.name);
      var remaining := limit - |headed|;
      assert Full(entries[..i + 1]) == headed + e.contents;
      if remaining <= 0 {
        NoFailsAfter(entries, limit, i);
        HeaderLastOnly(entries, limit, i);
        assert HeaderLast(entries, limit, i);
      } else if limit <= |headed| + |e.contents| {
        NoFailsAfter(entries, limit, i + 1);
        HeaderLastOnly(entries, limit, i);
        CutPrefix(entries, limit, i, headed + Prefix(e.contents, remaining));
      }
    }
  }

  /** Once the limit is used up, no later read can fail. */
  lemma NoFailsAfter(entries: seq<Entry>, limit: nat, i: nat)
    requires i <= |entries|
    ensures limit <= |Full(entries[..i])| ==> forall k :: i <= k < |entries| ==> !ReadFails(entries, limit, k)
    ensures i < |entries| && Shown(entries[i]) && limit <= |Full(entries[..i])| + |Header(entries[i].name)| ==>
              forall k :: i <= k < |entries| ==> !ReadFails(entries, limit, k)
  {
    forall k | i <= k < |entries| ensures |Full(entries[..i])| <= |Full(entries[..k])| {
      FullGrows(entries, i, k);
    }
    if i < |entries| && Shown(entries[i]) {
      FullStep(entries, i);
      forall k | i < k < |entries| ensures |Full(entries[..i + 1])| <= |Full(entries[..k])| {
        FullGrows(entries, i + 1, k);
      }
    }
  }

  /** Only the file in which the limit is used up can end with its header. */
  lemma HeaderLastOnly(entries: seq<Entry>, limit: nat, i: nat)
    requires i < |entries| && |Full(entries[..i])| < limit <= |Full(entries[..i + 1])|
    ensures forall k: nat :: HeaderLast(entries, limit, k) ==> k == i
  {
    hide Full, Header;
    forall k: nat | HeaderLast(entries, limit, k) ensures k == i {
      FullStep(entries, k);
      if k < i { FullGrows(entries, k + 1, i); }
      if i < k { FullGrows(entries, i + 1, k); }
    }
  }

  lemma CutPrefix(entries: seq<Entry>, limit: nat, i: nat, text: string)
    requires i < |entries| && |text| == limit && text <= Full(entries[..i + 1])
    ensures text == Prefix(Full(entries), limit)
  {
    hide Full;
    FullPrefix(entries, i + 1);
    PrefixOf(text, Full(entries[..i + 1]), Full(entries));
  }

  lemma PrefixOf(text: string, part: string, whole: string)
    requires text <= part <= whole
    ensures text == Prefix(whole, |text|)
  {
  }

  lemma CutResult(entries: seq<Entry>, limit: nat, i: nat, text: string)
    requires CutAt(entries, limit, i, text) && limit > 0
    ensures IsCopy(entries, limit, Extracted(text))
  {
    hide Full, Capped;
  }

  lemma FailResult(entries: seq<Entry>, limit: nat, i: nat)
    requires ReadFails(entries, limit, i)
    ensures IsCopy(entries, limit, ReadFailed)
  {
    hide Full, Capped, ReadFails;
  }

  lemma CopyEnds(entries: seq<Entry>, limit: nat, i: nat, buf: string)
    requires Copied(entries, limit, i, buf) && i == |entries|
    ensures IsCopy(entries, limit, if |buf| == 0 then EmptyArchive else Extracted(buf))
  {
    hide Full, Header;
    assert entries[..i] == entries;
    forall k: nat ensures !HeaderLast(entries, limit, k) {
      if k < |entries| {
        FullStep(entries, k);
        FullPrefix(entries, k + 1);
      }
    }
  }

  /** The extracted text is shorter than the limit plus the longest header. */
  lemma OverflowBounded(entries: seq<Entry>, limit: nat, text: string, longest: nat)
    requires Capped(entries, limit, text) && longest > 0
    requires forall i :: 0 <= i < |entries| ==> |Header(entries[i].name)| <= longest
    ensures |text| < limit + longest
  {
    hide Full, Header;
    if i: nat :| HeaderLast(entries, limit, i) {
      assert |Full(entries[..i]) + Header(entries[i].name)| < limit + longest;
    }
  }

  /** It exceeds the limit exactly when some header starts within the limit and ends beyond it. */
  lemma ExceedsIff(entries: seq<Entry>, limit: nat, text: string)
    requires Capped(entries, limit, text)
    ensures |text| > limit <==>
            exists i: nat :: HeaderLast(entries, limit, i) && |Full(entries[..i])| + |Header(entries[i].name)| > limit
  {
    hide Full, Header;
    if i: nat :| HeaderLast(entries, limit, i) {
      assert |text| == |Full(entries[..i])| + |Header(entries[i].name)|;
    }
  }

  /** The limit is not exact: whatever is extracted from one file with a one-byte limit exceeds it. */
  lemma LimitIsNotExact(e: Entry, text: string)
    requires Shown(e) && Capped([e], 1, text)
    ensures |text| > 1
  {
    assert [e][..0] == [];
    assert HeaderLast([e], 1, 0);
    ExceedsIff([e], 1, text);
  }

  // ----- Downloading -----

  datatype Download = Logs(text: string) | NoLogs(error: Error)

  /** Downloading the logs of a run: the transport's result, then the extraction. */
  method DownloadRunLogs(fetched: Result, decoded: Body, maxBytes: int) returns (d: Download)
    requires fetched.Ok? ==> fetched.body == (if decoded.Plain? then decoded.text else decoded.raw)
    ensures fetched.Err? && fetched.error != Sentinel(NotFound) ==> d == NoLogs(fetched.error)
    ensures fetched.Err? && fetched.error == Sentinel(NotFound) ==> d == NoLogs(Sentinel(LogsUnavailable))
    ensures fetched.Ok? && fetched.body == "" ==> d == NoLogs(Sentinel(LogsUnavailable))
    ensures fetched.Ok? && fetched.body != "" && decoded.Plain? ==> d == Logs(Prefix(decoded.text, Limit(maxBytes)))
    ensures fetched.Ok? && fetched.body != "" && decoded.Zip? ==>
              && (d.NoLogs? <==> Full(decoded.entries) == "" || exists i: nat :: ReadFails(decoded.entries, Limit(maxBytes), i))
              && (d.NoLogs? ==> d.error == Sentinel(LogsUnavailable))
              && (d.Logs? ==> d.text <= Full(decoded.entries) && Capped(decoded.entries, Limit(maxBytes), d.text))
  {
    hide Full, ReadFails, Header, HeaderLast, Prefix, Capped;
    if fetched.Err? {
      if fetched.error == Sentinel(NotFound) {
        return NoLogs(Sentinel(LogsUnavailable));
      }
      return NoLogs(fetched.error);
    }
    if |fetched.body| == 0 {
      return NoLogs(Sentinel(LogsUnavailable));
    }
    var bytes := maxBytes;
    if bytes <= 0 { bytes := ONE_MIB; }
    assert Limit(bytes) == Limit(maxBytes);
    var text := UnzipOrText(decoded, bytes);
    if !text.Extracted? {
      return NoLogs(Sentinel(LogsUnavailable));
    }
    d := Logs(text.text);
  }

  /** A missing run is never reported as missing logs, whatever the network does. */
  lemma MissingRunIsNotMissingLogs(net: Network, fetched: Result, attempts: nat)
    requires attempts >= 1 && fetched.Err?
    requires if Retried(net, attempts) then net.cancelled(attempts) && fetched == Err(ContextDone)
             else fetched == DoOnce(net.exchanges(attempts)).result
    ensures fetched.error != Sentinel(NotFound) && !Is(fetched.error, LogsUnavailable)
    ensures Is(fetched.error, NotFound) ==> MapError(fetched.error) == ToolError(UNAUTHORIZED, false)
  {
    if !Retried(net, attempts) { NeverASentinel(net.exchanges(attempts)); }
  }

  /** Without a positive limit it is one mebibyte. */
  lemma LimitMeans(maxBytes: int)
    ensures Limit(maxBytes) == if maxBytes > 0 then maxBytes else 1_048_576
  {
  }

  /** Of one file there is a header line with its name and its contents, and nothing of a
      directory or a file that does not open. */
  lemma FullOfOne(e: Entry)
    ensures Full([e]) == if !e.opens || (e.name != "" && e.name[|e.name| - 1] == '/') then ""
                         else "\n===== " + e.name + " =====\n" + e.contents
  {
    assert [e][..0] == [];
    assert Full([]) == "";
  }

  /** What there is to extract is put together file by file. */
  lemma {:induction false} FullAppends(a: seq<Entry>, b: seq<Entry>)
    ensures Full(a + b) == Full(a) + Full(b)
  {
    hide *;
    if b == [] {
      assert a + b == a;
      NothingFull();
    } else {
      var n := |b| - 1;
      FullAppends(a, b[..n]);
      FullLast(a + b);
      FullLast(b);
      assert (a + b)[..|a + b| - 1] == a + b[..n];
    }
  }

  lemma NothingFull()
    ensures Full([]) == ""
  {
  }

  lemma FullLast(s: seq<Entry>)
    requires s != []
    ensures var n := |s| - 1;
            Full(s) == Full(s[..n]) + (if Shown(s[n]) then Header(s[n].name) + s[n].contents else "")
  {
  }

  /** The flaky analysis passes half the configured limit; the limit in force stays within
      the configured one exactly when that is at least two bytes. */
  lemma HalfLimit(maxLogBytes: int)
    requires maxLogBytes > 0
    ensures Limit(maxLogBytes / 2) <= maxLogBytes <==> maxLogBytes >= 2
    ensures maxLogBytes == 1 ==> Limit(maxLogBytes / 2) == 1_048_576
  {
  }
}
