/** The file name `saveLog` copies the running log to: `[<start>][<now>].log`, made safe for
    file systems by turning every ':' into '_'. */
module SnapshotNames {

  /** `s` with every `from` replaced by `to`, as `std::replace` leaves a string. */
  function Replace(s: string, from: char, to: char): (r: string)
    ensures |r| == |s|
  {
    if s == [] then [] else [if s[0] == from then to else s[0]] + Replace(s[1..], from, to)
  }

  /** Each position holds `to` where `from` was and is untouched elsewhere. */
  lemma {:induction false} ReplaceAt(s: string, from: char, to: char, i: nat)
    requires i < |s|
    ensures Replace(s, from, to)[i] == if s[i] == from then to else s[i]
  {
    if i > 0 {
      ReplaceAt(s[1..], from, to, i - 1);
    } else if |s| > 1 {
      ReplaceAt(s[1..], from, to, 0);
    }
  }

  /** Replacing works character by character, so it distributes over concatenation. */
  lemma {:induction false} ReplaceConcat(s: string, t: string, from: char, to: char)
    ensures Replace(s + t, from, to) == Replace(s, from, to) + Replace(t, from, to)
  {
    if s != [] {
      ReplaceConcat(s[1..], t, from, to);
      assert (s + t)[1..] == s[1..] + t;
    } else {
      assert s + t == t;
    }
  }

  /** `std::replace(name.begin(), name.end(), from, to)`: rewrites the buffer in place. */
  method ReplaceInPlace(a: array<char>, from: char, to: char)
    modifies a
    ensures a[..] == Replace(old(a[..]), from, to)
  {
    ghost var original := a[..];
    var i := 0;
    while i < a.Length
      invariant 0 <= i <= a.Length
      invariant forall k :: 0 <= k < i ==> a[k] == Replace(original, from, to)[k]
      invariant forall k :: i <= k < a.Length ==> a[k] == original[k]
    {
      ReplaceAt(original, from, to, i);
      if a[i] == from {
        a[i] := to;
      }
      i := i + 1;
    }
  }

  /** The name before the substitution: `"[" + start + "][" + now + "].log"`. */
  function RawName(start: string, now: string): string {
    "[" + start + "][" + now + "].log"
  }

  /** The snapshot file name for a session started at `start`, saved at `now`. */
  function SnapshotName(start: string, now: string): string {
    Replace(RawName(start, now), ':', '_')
  }

  /** The snapshot name holds no ':', has the length of the raw name, and differs from it
      only where the raw name held ':'. */
  lemma SnapshotNameIsSafe(start: string, now: string)
    ensures ':' !in SnapshotName(start, now)
    ensures |SnapshotName(start, now)| == |RawName(start, now)|
    ensures forall i :: 0 <= i < |RawName(start, now)| ==>
      SnapshotName(start, now)[i] == if RawName(start, now)[i] == ':' then '_' else RawName(start, now)[i]
  {
    var raw, name := RawName(start, now), SnapshotName(start, now);
    forall i | 0 <= i < |raw|
      ensures name[i] == if raw[i] == ':' then '_' else raw[i]
    {
      ReplaceAt(raw, ':', '_', i);
    }
    assert forall i :: 0 <= i < |name| ==> name[i] != ':';
  }

  /** The snapshot name begins with `[<start>]`, made safe on its own. */
  lemma SnapshotNameStart(start: string, now: string)
    ensures |SnapshotName(start, now)| >= |start| + 2
    ensures SnapshotName(start, now)[..|start| + 2] == Replace("[" + start + "]", ':', '_')
  {
    var prefix := "[" + start + "]";
    assert RawName(start, now) == prefix + ("[" + now + "].log");
    ReplaceConcat(prefix, "[" + now + "].log", ':', '_');
  }

  /** Every snapshot of one session starts with the same `[<start>]` prefix, whatever the save time. */
  lemma SnapshotNamesShareStart(start: string, now1: string, now2: string)
    ensures |SnapshotName(start, now1)| >= |start| + 2
    ensures SnapshotName(start, now1)[..|start| + 2] == SnapshotName(start, now2)[..|start| + 2]
    ensures SnapshotName(start, now1)[..|start| + 2] == Replace("[" + start + "]", ':', '_')
  {
    SnapshotNameStart(start, now1);
    SnapshotNameStart(start, now2);
  }

  /** A string without `from` is left as it is. */
  lemma {:induction false} ReplaceAbsent(s: string, from: char, to: char)
    requires from !in s
    ensures Replace(s, from, to) == s
  {
    if s != [] {
      ReplaceAbsent(s[1..], from, to);
    }
  }

  /** Replacing across one occurrence of `from` that follows a stretch free of it. */
  lemma ReplaceAcross(s: string, t: string, from: char, to: char)
    requires from !in s
    ensures Replace(s + [from] + t, from, to) == s + [to] + Replace(t, from, to)
  {
    ReplaceConcat(s + [from], t, from, to);
    ReplaceConcat(s, [from], from, to);
    ReplaceAbsent(s, from, to);
  }

  /** The snapshot name is the two time strings, each made safe on its own, in the fixed frame. */
  lemma SnapshotNameParts(start: string, now: string)
    ensures SnapshotName(start, now)
         == "[" + Replace(start, ':', '_') + "][" + Replace(now, ':', '_') + "].log"
  {
    ReplaceConcat("[" + start + "][" + now, "].log", ':', '_');
    ReplaceConcat("[" + start + "][", now, ':', '_');
    ReplaceConcat("[" + start, "][", ':', '_');
    ReplaceConcat("[", start, ':', '_');
    ReplaceAbsent("[", ':', '_');
    ReplaceAbsent("][", ':', '_');
    ReplaceAbsent("].log", ':', '_');
  }

  /** A `%Y-%m-%d %H:%M:%S` time, split at its two ':' into `hour` ("YYYY-MM-DD HH"), minutes
      and seconds, keeps every other character and has both ':' turned into '_'. */
  lemma ClockTimeSafe(hour: string, min: string, sec: string)
    requires ':' !in hour && ':' !in min && ':' !in sec
    ensures Replace(hour + ":" + min + ":" + sec, ':', '_') == hour + "_" + min + "_" + sec
  {
    var tail := min + ":" + sec;
    ReplaceAcross(min, sec, ':', '_');
    ReplaceAbsent(sec, ':', '_');
    ReplaceAcross(hour, tail, ':', '_');
    assert hour + ":" + min + ":" + sec == hour + [':'] + tail;
  }

  /** The name's fixed frame around the safe times `2024-01-01 10_00_00` and `2024-01-01 10_05_30`. */
  lemma ExampleFrame(start: string, now: string)
    requires start == "2024-01-01 10_00_00" && now == "2024-01-01 10_05_30"
    ensures "[" + start + "][" + now + "].log" == "[2024-01-01 10_00_00][2024-01-01 10_05_30].log"
  {
    assert "[" + start + "][" == "[2024-01-01 10_00_00][" by {
      assert "[" + start == "[2024-01-01 10_00_00";
    }
    assert "[" + start + "][" + now + "].log" == ("[" + start + "][") + (now + "].log");
  }

  /** A session started at `2024-01-01 10:00:00` and saved at `2024-01-01 10:05:30`. */
  lemma SnapshotNameExample(start: string, now: string)
    requires start == "2024-01-01 10:00:00" && now == "2024-01-01 10:05:30"
    ensures SnapshotName(start, now) == "[2024-01-01 10_00_00][2024-01-01 10_05_30].log"
  {
    SnapshotNameParts(start, now);
    assert start == "2024-01-01 10" + ":" + "00" + ":" + "00";
    ClockTimeSafe("2024-01-01 10", "00", "00");
    assert now == "2024-01-01 10" + ":" + "05" + ":" + "30";
    ClockTimeSafe("2024-01-01 10", "05", "30");
    ExampleFrame(Replace(start, ':', '_'), Replace(now, ':', '_'));
  }
}
