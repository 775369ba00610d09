/** The hand-written serde impls: a path is written with every separator
    replaced by char 28 and read back as it is; a file size is its byte
    count. */
module SerDe {
  import opened Prim
  import opened Files

  /** The stand-in for the separator: char 28, the ASCII unit separator. */
  const Unit: char := 28 as char

  function MapSeparator(c: char): char
  {
    if c == MainSeparator then Unit else c
  }

  /** `serialize_pathbuf`: the path text with each separator replaced. */
  function SerializePath(p: string): string
  {
    if p == [] then [] else [MapSeparator(p[0])] + SerializePath(p[1..])
  }

  /** The serialised text has the same length, the same characters in the
      same places except that each separator became char 28, and no
      separator left; so serialising it again changes nothing. */
  lemma {:induction false} SerializePathProperties(p: string)
    ensures |SerializePath(p)| == |p|
    ensures forall i :: 0 <= i < |p| ==> SerializePath(p)[i] == (if p[i] == MainSeparator then Unit else p[i])
    ensures MainSeparator !in SerializePath(p)
    ensures SerializePath(SerializePath(p)) == SerializePath(p)
  {
    if p != [] {
      SerializePathProperties(p[1..]);
      var r := SerializePath(p);
      assert r[1..] == SerializePath(p[1..]);
      forall i | 0 <= i < |p|
        ensures r[i] == (if p[i] == MainSeparator then Unit else p[i])
      {
        if i > 0 {
          assert r[i] == SerializePath(p[1..])[i - 1];
        }
      }
      assert SerializePath(r) == [MapSeparator(r[0])] + SerializePath(r[1..]);
    }
  }

  /** `Serialize for PitouFilePath`. */
  function SerializeFilePath(p: PitouFilePath): string
  {
    SerializePath(p.path)
  }

  /** `deserialize_pathbuf` together with `Deserialize for PitouFilePath`:
      the string is taken as the path, with no inverse mapping. */
  function DeserializeFilePath(s: string): PitouFilePath
  {
    PitouFilePath(s)
  }

  /** As written, the round trip loses every absolute path: it comes back
      relative (its first character is char 28), so it is not the same path. */
  lemma AbsolutePathDoesNotRoundTrip(p: PitouFilePath)
    requires |p.path| > 0 && p.path[0] == MainSeparator
    ensures !PathEq(DeserializeFilePath(SerializeFilePath(p)), p)
    ensures !ComponentsOf(DeserializeFilePath(SerializeFilePath(p)).path).hasRoot
  {
    SerializePathProperties(p.path);
  }

  /** More generally, as written no path with a separator in it comes back
      as itself. */
  lemma SeparatorPathDoesNotRoundTrip(p: PitouFilePath)
    requires MainSeparator in p.path
    ensures DeserializeFilePath(SerializeFilePath(p)) != p
  {
    SerializePathProperties(p.path);
  }

  function RestoreSeparator(c: char): char
  {
    if c == Unit then MainSeparator else c
  }

  /** The corrected deserialiser: char 28 back to the separator. */
  function DeserializeRestoring(s: string): PitouFilePath
  {
    PitouFilePath(RestoreText(s))
  }

  function RestoreText(s: string): (r: string)
    ensures |r| == |s|
  {
    if s == [] then [] else [RestoreSeparator(s[0])] + RestoreText(s[1..])
  }

  /** With it, every path without char 28 in its text round-trips exactly. */
  lemma {:induction false} RestoringRoundTrip(p: string)
    requires Unit !in p
    ensures DeserializeRestoring(SerializePath(p)) == PitouFilePath(p)
  {
    if p != [] {
      assert Unit !in p[1..] by {
        forall i | 0 <= i < |p[1..]| ensures p[1..][i] != Unit {
          assert p[1..][i] == p[i + 1];
        }
      }
      RestoringRoundTrip(p[1..]);
      assert p[0] != Unit;
      var s := SerializePath(p);
      assert s[1..] == SerializePath(p[1..]);
      assert RestoreText(s) == [RestoreSeparator(s[0])] + RestoreText(s[1..]);
    }
  }

  /** `Serialize for PitouFileSize`: the `u64` byte count. */
  function SerializeFileSize(s: PitouFileSize): U64
  {
    s.bytes
  }

  /** `Deserialize for PitouFileSize`: a size of that many bytes. */
  function DeserializeFileSize(v: U64): PitouFileSize
  {
    PitouFileSize(v)
  }

  /** The size round-trips both ways. */
  lemma FileSizeRoundTrip(s: PitouFileSize, v: U64)
    ensures DeserializeFileSize(SerializeFileSize(s)) == s
    ensures SerializeFileSize(DeserializeFileSize(v)) == v
  {
  }
}
