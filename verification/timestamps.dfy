/** Rewriting the upstream "date time" stamp into the host's ISO-8601 form
    (`convertTime` in index.js), with `String.prototype.split` on a
    one-character separator modelled as a function. */
module Timestamps {
  import opened Json

  /** `s.split(sep)`: the pieces between separators, always at least one
      (splitting "" gives [""]), none containing the separator. */
  function Split(s: string, sep: char): (parts: seq<string>)
    ensures |parts| >= 1
    ensures forall k :: 0 <= k < |parts| ==> sep !in parts[k]
    decreases |s|
  {
    if s == [] then [""]
    else
      var rest := Split(s[1..], sep);
      if s[0] == sep then [""] + rest
      else [[s[0]] + rest[0]] + rest[1..]
  }

  /** `parts.join(sep)`: the reference that Split inverts. */
  function Join(parts: seq<string>, sep: char): string
    decreases |parts|
  {
    if parts == [] then ""
    else if |parts| == 1 then parts[0]
    else parts[0] + [sep] + Join(parts[1..], sep)
  }

  /** Splitting loses nothing: joining the pieces back gives the input. */
  lemma {:induction false} JoinSplit(s: string, sep: char)
    ensures Join(Split(s, sep), sep) == s
    decreases |s|
  {
    if s != [] {
      var rest := Split(s[1..], sep);
      JoinSplit(s[1..], sep);
      if s[0] == sep {
        assert Split(s, sep) == [""] + rest;
        assert ([""] + rest)[1..] == rest;
      } else if |rest| == 1 {
        assert Split(s, sep) == [[s[0]] + rest[0]];
        assert s == [s[0]] + s[1..];
      } else {
        var parts := [[s[0]] + rest[0]] + rest[1..];
        assert Split(s, sep) == parts;
        assert parts[1..] == rest[1..];
        assert Join(rest, sep) == rest[0] + [sep] + Join(rest[1..], sep);
        assert s == [s[0]] + s[1..];
      }
    }
  }

  /** A string without the separator is not split at all. */
  lemma {:induction false} SplitNoSeparator(s: string, sep: char)
    requires sep !in s
    ensures Split(s, sep) == [s]
    decreases |s|
  {
    if s != [] {
      SplitNoSeparator(s[1..], sep);
      assert s == [s[0]] + s[1..];
    }
  }

  /** The first separator ends the first piece; the rest is split on its own. */
  lemma {:induction false} SplitAtFirst(a: string, b: string, sep: char)
    requires sep !in a
    ensures Split(a + [sep] + b, sep) == [a] + Split(b, sep)
    decreases |a|
  {
    if a == [] {
      assert a + [sep] + b == [sep] + b;
      assert ([sep] + b)[1..] == b;
    } else {
      var s := a + [sep] + b;
      assert s[1..] == a[1..] + [sep] + b;
      SplitAtFirst(a[1..], b, sep);
      assert a == [a[0]] + a[1..];
    }
  }

  /** `tparts[k]` used in a string concatenation: an index past the end
      reads `undefined`, which concatenates as the text "undefined". */
  function PartText(parts: seq<string>, k: nat): string
  {
    if k < |parts| then parts[k] else "undefined"
  }

  /** `convertTime(vessel, val)`: split on a space and rebuild as
      date + "T" + time + "Z". Calling `split` on undefined, null or a
      non-string throws a TypeError. */
  function ConvertTime(lastUpdate: Option<Value>): (r: Result<string, TypeError>)
    ensures r.Success? <==> lastUpdate.Some? && lastUpdate.value.Str?
    ensures r.Success? ==> |r.value| >= 2 && r.value[|r.value| - 1] == 'Z'
  {
    match lastUpdate
    case None => Failure(ReadOfUndefined("split"))
    case Some(Null) => Failure(ReadOfNull("split"))
    case Some(Str(s)) =>
      var tparts := Split(s, ' ');
      Success(tparts[0] + "T" + PartText(tparts, 1) + "Z")
    case Some(_) => Failure(NotAFunction("split"))
  }

  /** The usual case: "D T" with no space inside D or T becomes "DTTZ". */
  lemma {:induction false} ConvertDateTime(date: string, time: string)
    requires ' ' !in date && ' ' !in time
    ensures ConvertTime(Some(Str(date + " " + time))) == Success(date + "T" + time + "Z")
  {
    SplitAtFirst(date, time, ' ');
    SplitNoSeparator(time, ' ');
    assert Split(date + " " + time, ' ') == [date, time];
  }

  /** Tokens after the second are dropped. */
  lemma {:induction false} ConvertDropsExtraTokens(date: string, time: string, rest: string)
    requires ' ' !in date && ' ' !in time
    ensures ConvertTime(Some(Str(date + " " + time + " " + rest))) == Success(date + "T" + time + "Z")
  {
    SplitAtFirst(time, rest, ' ');
    assert date + " " + time + " " + rest == date + [' '] + (time + " " + rest);
    SplitAtFirst(date, time + " " + rest, ' ');
    var parts := Split(date + " " + time + " " + rest, ' ');
    assert parts[0] == date && parts[1] == time;
  }

  /** With no space at all, the missing time part reads as "undefined"; no
      error is raised. */
  lemma {:induction false} ConvertWithoutSpace(s: string)
    requires ' ' !in s
    ensures ConvertTime(Some(Str(s))) == Success(s + "TundefinedZ")
  {
    SplitNoSeparator(s, ' ');
    assert PartText([s], 1) == "undefined";
    assert s + "T" + "undefined" + "Z" == s + "TundefinedZ";
  }

  /** A stamp in AisHub's "date time" form becomes an ISO-8601 UTC stamp. */
  lemma SampleStamp()
    ensures ConvertTime(Some(Str("2022-01-01 00:00:00"))) == Success("2022-01-01T00:00:00Z")
  {
    ConvertDateTime("2022-01-01", "00:00:00");
    assert "2022-01-01" + " " + "00:00:00" == "2022-01-01 00:00:00";
    assert "2022-01-01" + "T" + "00:00:00" + "Z" == "2022-01-01T00:00:00Z";
  }
}
