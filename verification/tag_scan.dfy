/**
 Bundle detection in `txPostRoute`: every tag is decoded, and a loop keeps
 overwriting the remembered `Bundle-Format` and `Bundle-Version` values, so
 the last tag carrying each name decides.
 */
module TagScan {
  import opened Schema

  /** A tag after transport decoding. */
  datatype Pair = Pair(name: string, value: string)

  const FormatName := "Bundle-Format"
  const VersionName := "Bundle-Version"
  const BinaryFormat := "binary"
  const SupportedVersion := "2.0.0"

  /** Decodes name and value of every tag with `decode` (the transport decoder). */
  function DecodeTags(decode: string -> string, tags: seq<Tag>): (pairs: seq<Pair>)
    ensures |pairs| == |tags|
  {
    seq(|tags|, i requires 0 <= i < |tags| => Pair(decode(tags[i].name), decode(tags[i].value)))
  }

  /** The variable the loop keeps for one tag name: starts at `init`, overwritten on every match.
      It ends on `init` or on the value of some tag called `name`, and on `init` when none is. */
  function Overwrite(pairs: seq<Pair>, name: string, init: string): (v: string)
    ensures v == init || exists i :: 0 <= i < |pairs| && pairs[i] == Pair(name, v)
    ensures (forall i :: 0 <= i < |pairs| ==> pairs[i].name != name) ==> v == init
    decreases |pairs|
  {
    if |pairs| == 0 then init
    else Overwrite(pairs[1..], name, if pairs[0].name == name then pairs[0].value else init)
  }

  /** `i` is the last position whose tag is called `name`. */
  ghost predicate IsLastMatch(pairs: seq<Pair>, name: string, i: int) {
    && 0 <= i < |pairs|
    && pairs[i].name == name
    && forall j :: i < j < |pairs| ==> pairs[j].name != name
  }

  /** The last tag called `name` exists and carries `value`. */
  ghost predicate LastValueIs(pairs: seq<Pair>, name: string, value: string) {
    exists i :: IsLastMatch(pairs, name, i) && pairs[i].value == value
  }

  /** The overwriting loop ends with the value of the last match, or its initial value. */
  lemma {:induction false} OverwriteIsLastMatch(pairs: seq<Pair>, name: string, init: string)
    ensures forall i :: IsLastMatch(pairs, name, i) ==> Overwrite(pairs, name, init) == pairs[i].value
    ensures (forall i :: 0 <= i < |pairs| ==> pairs[i].name != name) ==> Overwrite(pairs, name, init) == init
    decreases |pairs|
  {
    if |pairs| > 0 {
      var init' := if pairs[0].name == name then pairs[0].value else init;
      OverwriteIsLastMatch(pairs[1..], name, init');
      forall i | IsLastMatch(pairs, name, i)
        ensures Overwrite(pairs, name, init) == pairs[i].value
      {
        if i > 0 {
          assert IsLastMatch(pairs[1..], name, i - 1);
        } else {
          assert forall j :: 0 <= j < |pairs[1..]| ==> pairs[1..][j] == pairs[j + 1];
        }
      }
      if forall i :: 0 <= i < |pairs| ==> pairs[i].name != name {
        assert forall j :: 0 <= j < |pairs[1..]| ==> pairs[1..][j] == pairs[j + 1];
      }
    }
  }

  /** When some tag is called `name`, one of them is the last. */
  lemma {:induction false} LastMatchExists(pairs: seq<Pair>, name: string, k: int)
    requires 0 <= k < |pairs| && pairs[k].name == name
    ensures exists i :: IsLastMatch(pairs, name, i)
    decreases |pairs| - k
  {
    if !IsLastMatch(pairs, name, k) {
      var j :| k < j < |pairs| && pairs[j].name == name;
      LastMatchExists(pairs, name, j);
    }
  }

  /** The condition `bundleFormat === 'binary' && bundleVersion === '2.0.0'` after the loop:
      the last `Bundle-Format` tag says `binary` and the last `Bundle-Version` tag says `2.0.0`. */
  predicate IsBundleMarked(pairs: seq<Pair>)
    ensures IsBundleMarked(pairs) <==>
              LastValueIs(pairs, FormatName, BinaryFormat) && LastValueIs(pairs, VersionName, SupportedVersion)
  {
    BundleMarkedIffLastTags(pairs);
    Overwrite(pairs, FormatName, "") == BinaryFormat && Overwrite(pairs, VersionName, "") == SupportedVersion
  }

  /** After the overwriting loop, the remembered values are `binary` and `2.0.0` exactly
      when the last `Bundle-Format` tag says `binary` and the last `Bundle-Version` tag
      says `2.0.0`. */
  lemma BundleMarkedIffLastTags(pairs: seq<Pair>)
    ensures (Overwrite(pairs, FormatName, "") == BinaryFormat && Overwrite(pairs, VersionName, "") == SupportedVersion)
            <==> LastValueIs(pairs, FormatName, BinaryFormat) && LastValueIs(pairs, VersionName, SupportedVersion)
  {
    OverwriteIsLastMatch(pairs, FormatName, "");
    OverwriteIsLastMatch(pairs, VersionName, "");
    if Overwrite(pairs, FormatName, "") == BinaryFormat && Overwrite(pairs, VersionName, "") == SupportedVersion {
      var f :| 0 <= f < |pairs| && pairs[f].name == FormatName;
      LastMatchExists(pairs, FormatName, f);
      var v :| 0 <= v < |pairs| && pairs[v].name == VersionName;
      LastMatchExists(pairs, VersionName, v);
    }
  }
}
