/**
 What a project's fingerprint hashes (crates/config/src/project.rs): every field preceded by
 its length as eight big-endian bytes. The hash itself is outside the model; what is proved is
 about the bytes fed to it.
 */
module Fingerprint {
  import opened Prelude

  type byte = n: int | 0 <= n < 256

  type Bytes = seq<byte>

  /** A field short enough for its length to be a u64. */
  type Field = f: Bytes | |f| <= U64_MAX

  datatype Asset = Asset(name: Field, contents: Field)

  /** The last `width` big-endian bytes of `n`. */
  function BigEndian(n: nat, width: nat): (b: Bytes)
    ensures |b| == width
  {
    if width == 0 then [] else BigEndian(n / 256, width - 1) + [n % 256]
  }

  function Value(b: Bytes): nat {
    if b == [] then 0 else 256 * Value(b[..|b| - 1]) + b[|b| - 1]
  }

  function Framed(field: Field): Bytes {
    BigEndian(|field|, 8) + field
  }

  function FramedAll(fields: seq<Field>): Bytes {
    if fields == [] then [] else FramedAll(fields[..|fields| - 1]) + Framed(fields[|fields| - 1])
  }

  function AsBytes(s: string): Bytes {
    seq(|s|, i requires 0 <= i < |s| => s[i] as int % 256)
  }

  const TAG: Field := AsBytes("superquery-project-v1")

  function AssetFields(assets: seq<Asset>): seq<Field> {
    if assets == [] then []
    else AssetFields(assets[..|assets| - 1]) + [assets[|assets| - 1].name, assets[|assets| - 1].contents]
  }

  /** The assets of all data sources, one after another. */
  function Flattened(sources: seq<seq<Asset>>): seq<Asset> {
    if sources == [] then [] else Flattened(sources[..|sources| - 1]) + sources[|sources| - 1]
  }

  function Fields(manifest: Field, schema: Field, assets: seq<Asset>): seq<Field> {
    [TAG, manifest, schema] + AssetFields(assets)
  }

  /** A hasher remembers what it has been fed. */
  class Hasher {
    var fed: Bytes

    constructor ()
      ensures fed == []
    {
      fed := [];
    }

    method Update(bytes: Bytes)
      modifies this
      ensures fed == old(fed) + bytes
    {
      fed := fed + bytes;
    }

    /** The `add` closure: length, then contents. */
    method Add(field: Field)
      modifies this
      ensures fed == old(fed) + Framed(field)
    {
      Update(BigEndian(|field|, 8));
      Update(field);
    }
  }

  /** What has been hashed after the leading fields and some assets. */
  ghost function Preimage(head: seq<Field>, assets: seq<Asset>): Bytes {
    FramedAll(head + AssetFields(assets))
  }

  lemma OneMoreField(fields: seq<Field>, field: Field)
    ensures FramedAll(fields + [field]) == FramedAll(fields) + Framed(field)
  {
    assert (fields + [field])[..|fields|] == fields;
  }

  lemma ThreeItems<T>(a: T, b: T, c: T)
    ensures [] + [a] + [b] + [c] == [a, b, c]
  {
  }

  lemma ThreeFields(a: Field, b: Field, c: Field)
    ensures Preimage([a, b, c], []) == [] + Framed(a) + Framed(b) + Framed(c)
  {
    var none: seq<Field> := [];
    OneMoreField(none, a);
    OneMoreField(none + [a], b);
    OneMoreField(none + [a] + [b], c);
    ThreeItems(a, b, c);
    assert [a, b, c] + AssetFields([]) == [a, b, c];
  }

  lemma OneMoreAsset(head: seq<Field>, assets: seq<Asset>, asset: Asset)
    ensures Preimage(head, assets + [asset]) ==
            Preimage(head, assets) + Framed(asset.name) + Framed(asset.contents)
  {
    var fields := head + AssetFields(assets);
    assert (assets + [asset])[..|assets|] == assets;
    assert head + AssetFields(assets + [asset]) == fields + [asset.name] + [asset.contents];
    OneMoreField(fields, asset.name);
    OneMoreField(fields + [asset.name], asset.contents);
  }

  /** Feeds the hasher field by field, data source by data source. */
  method Fingerprint(manifest: Field, schema: Field, sources: seq<seq<Asset>>) returns (hash: Hasher)
    ensures hash.fed == FramedAll(Fields(manifest, schema, Flattened(sources)))
  {
    hash := new Hasher();
    hash.Add(TAG);
    hash.Add(manifest);
    hash.Add(schema);
    ghost var head := [TAG, manifest, schema];
    ghost var done: seq<Asset> := [];
    ThreeFields(TAG, manifest, schema);
    for i := 0 to |sources|
      invariant done == Flattened(sources[..i])
      invariant hash.fed == Preimage(head, done)
    {
      ghost var before := done;
      for j := 0 to |sources[i]|
        invariant done == before + sources[i][..j]
        invariant hash.fed == Preimage(head, done)
      {
        var asset := sources[i][j];
        OneMoreAsset(head, done, asset);
        done := done + [asset];
        hash.Add(asset.name);
        hash.Add(asset.contents);
      }
      assert sources[i][..|sources[i]|] == sources[i];
      assert sources[..i + 1][..i] == sources[..i];
    }
    assert sources[..|sources|] == sources;
  }

  // ---------------------------------------------------------------- unique decoding

  /** Splits framed bytes back into fields; `None` when they are not a sequence of frames. */
  function Parsed(bytes: Bytes): Option<seq<Bytes>>
    decreases |bytes|
  {
    if bytes == [] then Some([])
    else if |bytes| < 8 || Value(bytes[..8]) > |bytes| - 8 then None
    else
      var end := 8 + Value(bytes[..8]);
      match Parsed(bytes[end..])
      case None => None
      case Some(rest) => Some([bytes[8..end]] + rest)
  }

  function Power256(width: nat): nat {
    if width == 0 then 1 else 256 * Power256(width - 1)
  }

  lemma SplitByte(n: nat, power: nat)
    requires n < 256 * power
    ensures n / 256 < power && n == 256 * (n / 256) + n % 256
  {
  }

  lemma ValueOfLast(front: Bytes, last: byte)
    ensures Value(front + [last]) == 256 * Value(front) + last
  {
    assert (front + [last])[..|front|] == front;
  }

  lemma {:induction false} ValueOfBigEndian(n: nat, width: nat)
    requires n < Power256(width)
    ensures Value(BigEndian(n, width)) == n
  {
    if width == 0 {
    } else {
      SplitByte(n, Power256(width - 1));
      var front, last := BigEndian(n / 256, width - 1), n % 256;
      ValueOfBigEndian(n / 256, width - 1);
      ValueOfLast(front, last);
      assert BigEndian(n, width) == front + [last];
    }
  }

  lemma LengthFits(field: Field)
    ensures Value(BigEndian(|field|, 8)) == |field|
  {
    assert Power256(4) == 0x1_0000_0000;
    assert Power256(8) == 256 * 256 * 256 * 256 * Power256(4);
    ValueOfBigEndian(|field|, 8);
  }

  /** A frame in front of anything parses as that field, then the rest. */
  lemma {:induction false} ParsedFrame(field: Field, rest: Bytes)
    requires Parsed(rest).Some?
    ensures Parsed(Framed(field) + rest) == Some([field] + Parsed(rest).value)
  {
    var bytes := Framed(field) + rest;
    LengthFits(field);
    assert bytes[..8] == BigEndian(|field|, 8);
    assert bytes[8..8 + |field|] == field;
    assert bytes[8 + |field|..] == rest;
  }

  lemma {:induction false} FramedFront(field: Field, fields: seq<Field>)
    ensures FramedAll([field] + fields) == Framed(field) + FramedAll(fields)
  {
    if fields == [] {
      OneMoreField([], field);
      assert [field] + fields == [] + [field];
    } else {
      var front, last := fields[..|fields| - 1], fields[|fields| - 1];
      FramedFront(field, front);
      OneMoreField(front, last);
      OneMoreField([field] + front, last);
      assert fields == front + [last] && [field] + fields == [field] + front + [last];
    }
  }

  /** Parsing undoes framing, whatever the fields contain. */
  lemma {:induction false} ParsedFramedAll(fields: seq<Field>)
    ensures Parsed(FramedAll(fields)) == Some(fields)
  {
    if fields == [] {
    } else {
      assert fields == [fields[0]] + fields[1..];
      FramedFront(fields[0], fields[1..]);
      ParsedFramedAll(fields[1..]);
      ParsedFrame(fields[0], FramedAll(fields[1..]));
    }
  }

  lemma {:induction false} AssetFieldsLength(assets: seq<Asset>)
    ensures |AssetFields(assets)| == 2 * |assets|
  {
    if assets == [] {
    } else {
      AssetFieldsLength(assets[..|assets| - 1]);
    }
  }

  lemma {:induction false} AssetFieldsInjective(a: seq<Asset>, b: seq<Asset>)
    requires AssetFields(a) == AssetFields(b)
    ensures a == b
  {
    AssetFieldsLength(a);
    AssetFieldsLength(b);
    if a == [] {
    } else {
      var n := |a| - 1;
      var fa, fb := AssetFields(a), AssetFields(b);
      assert fa[..2 * n] == AssetFields(a[..n]) by { AssetFieldsLength(a[..n]); }
      assert fb[..2 * n] == AssetFields(b[..n]) by { AssetFieldsLength(b[..n]); }
      AssetFieldsInjective(a[..n], b[..n]);
      assert fa[2 * n] == a[n].name && fa[2 * n + 1] == a[n].contents;
      assert fb[2 * n] == b[n].name && fb[2 * n + 1] == b[n].contents;
      assert a == a[..n] + [a[n]] && b == b[..n] + [b[n]];
    }
  }

  lemma Distribute(a: nat, b: nat, p: nat)
    ensures 256 * ((256 * a + b) * p) == (256 * a + b) * (256 * p)
  {
  }

  /**
   The bytes of a length, most significant first: byte `i` is the digit of weight 256 to the power
   of the bytes after it.
   */
  lemma {:induction false} BigEndianByte(n: nat, width: nat, i: nat) returns (high: nat, low: nat)
    requires i < width
    ensures low < Power256(width - 1 - i)
    ensures n == (256 * high + BigEndian(n, width)[i]) * Power256(width - 1 - i) + low
  {
    var front := BigEndian(n / 256, width - 1);
    assert BigEndian(n, width) == front + [n % 256];
    if i == width - 1 {
      high, low := n / 256, 0;
      assert Power256(0) == 1;
    } else {
      var h, l := BigEndianByte(n / 256, width - 1, i);
      high, low := h, 256 * l + n % 256;
      Distribute(h, front[i], Power256(width - 2 - i));
    }
  }

  lemma {:induction false} AssetFieldsAre(assets: seq<Asset>, i: nat)
    requires i < |assets|
    ensures |AssetFields(assets)| == 2 * |assets|
    ensures AssetFields(assets)[2 * i] == assets[i].name && AssetFields(assets)[2 * i + 1] == assets[i].contents
  {
    AssetFieldsLength(assets);
    AssetFieldsLength(assets[..|assets| - 1]);
    if i == |assets| - 1 {
    } else {
      AssetFieldsAre(assets[..|assets| - 1], i);
    }
  }

  /** The assets of the data sources come source by source, each source's in its own order. */
  lemma {:induction false} FlattenedJoins(front: seq<seq<Asset>>, back: seq<seq<Asset>>)
    ensures Flattened(front + back) == Flattened(front) + Flattened(back)
  {
    if back == [] {
      assert front + back == front;
    } else {
      FlattenedJoins(front, back[..|back| - 1]);
      assert (front + back)[..|front + back| - 1] == front + back[..|back| - 1];
    }
  }

  lemma FlattenedOne(source: seq<Asset>)
    ensures Flattened([source]) == source
  {
    assert [source][..0] == [];
  }

  /** The tag in bytes. */
  lemma TagBytes()
    ensures TAG == [115, 117, 112, 101, 114, 113, 117, 101, 114, 121, 45,
                    112, 114, 111, 106, 101, 99, 116, 45, 118, 49]
  {
    assert |"superquery-project-v1"| == 21;
  }

  lemma {:induction false} FieldsAre(manifest: Field, schema: Field, assets: seq<Asset>, i: nat)
    requires i < |assets|
    ensures var fields := Fields(manifest, schema, assets);
            && |fields| == 3 + 2 * |assets|
            && fields[0] == TAG && fields[1] == manifest && fields[2] == schema
            && fields[3 + 2 * i] == assets[i].name && fields[4 + 2 * i] == assets[i].contents
  {
    AssetFieldsAre(assets, i);
    var rest := AssetFields(assets);
    assert rest[2 * i + 1] == assets[i].contents;
  }

  /**
   What was hashed, read back: the tag, the manifest, the schema, then each asset's name and
   contents in turn.
   */
  lemma {:induction false} PreimageReadsBack(manifest: Field, schema: Field, assets: seq<Asset>, i: nat)
    requires i < |assets|
    ensures var read := Parsed(FramedAll(Fields(manifest, schema, assets)));
            && read.Some? && |read.value| == 3 + 2 * |assets|
            && read.value[0] == TAG && read.value[1] == manifest && read.value[2] == schema
            && read.value[3 + 2 * i] == assets[i].name && read.value[4 + 2 * i] == assets[i].contents
  {
    ParsedFramedAll(Fields(manifest, schema, assets));
    FieldsAre(manifest, schema, assets, i);
  }

  /**
   Two projects feed the hash the same bytes exactly when their manifests, their schemas and
   their assets in order are the same: no field can borrow bytes from its neighbour.
   */
  lemma {:induction false} SamePreimageIffSameInputs(m1: Field, s1: Field, a1: seq<Asset>, m2: Field, s2: Field,
                                                     a2: seq<Asset>)
    ensures FramedAll(Fields(m1, s1, a1)) == FramedAll(Fields(m2, s2, a2)) <==> m1 == m2 && s1 == s2 && a1 == a2
  {
    var f1, f2 := Fields(m1, s1, a1), Fields(m2, s2, a2);
    ParsedFramedAll(f1);
    ParsedFramedAll(f2);
    if FramedAll(f1) == FramedAll(f2) {
      assert f1 == f2;
      assert f1[1] == m1 && f2[1] == m2 && f1[2] == s1 && f2[2] == s2;
      assert f1[3..] == AssetFields(a1) && f2[3..] == AssetFields(a2);
      AssetFieldsInjective(a1, a2);
    }
  }
}
