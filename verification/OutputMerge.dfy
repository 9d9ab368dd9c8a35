/** Writing an agent's output into the process data (`MergeAgentOutput` in `components/output_merge.go`). */
module OutputMerge {
  import opened Text
  import opened Definitions
  import opened JsonExtract

  datatype Mapping = Mapping(from: string, to: string)

  /** What the JSON and path libraries answer; D stands for JSON values. */
  datatype Library<!D> = Library(
    objectOf: string -> Option<map<string, D>>,
    wrap: map<string, D> -> D,
    text: string -> D,
    get: (string, string) -> Option<D>,
    show: D -> string)

  const DEFAULT_KEY := "_ai"
  const METADATA_PREFIX := "metadata."

  predicate HasPrefix(s: string, prefix: string) {
    |s| >= |prefix| && s[..|prefix|] == prefix
  }

  /** `normalizeGjsonPath`: paths may be written with or without the leading dollar sign. */
  function NormalizePath(path: string): string {
    if HasPrefix(path, "$.") then path[2..] else if HasPrefix(path, "$") then path[1..] else path
  }

  /** "$.a", "$a" and "a" are the same path; only one leading dollar sign goes. */
  lemma PathForms(path: string)
    ensures NormalizePath("$." + path) == path
    ensures !HasPrefix(path, ".") ==> NormalizePath("$" + path) == path
    ensures !HasPrefix(path, "$") ==> NormalizePath(path) == path
  {
    assert ("$." + path)[..2] == "$." && ("$" + path)[..1] == "$" && ("$" + path)[1..] == path;
    if HasPrefix("$" + path, "$.") { assert path[0] == ("$" + path)[1]; }
  }

  function Lookup<K, D>(m: map<K, D>, k: K): Option<D> {
    if k in m then Some(m[k]) else None
  }

  /** The value a mapping writes: none when an end is missing or the path finds nothing. */
  function Written<D>(lib: Library<D>, source: string, m: Mapping): Option<D> {
    if m.from == "" || m.to == "" then None else lib.get(source, NormalizePath(m.from))
  }

  /** The value the last mapping that targets exactly `to` writes. */
  function LastWrite<D>(lib: Library<D>, source: string, mappings: seq<Mapping>, to: string): Option<D> {
    if mappings == [] then None else
      var m := mappings[|mappings| - 1];
      if m.to == to && Written(lib, source, m).Some? then Written(lib, source, m)
      else LastWrite(lib, source, mappings[..|mappings| - 1], to)
  }

  /** The text of the first object in the output, if there is one. */
  function Found<D>(lib: Library<D>, output: string): (r: Option<string>)
    ensures r.Some? ==> lib.objectOf(r.value).Some?
  {
    var valid := (s: string) => lib.objectOf(s).Some?;
    FindObjectExtracts(TrimSpace(output), 0, valid);
    FindObject(TrimSpace(output), 0, valid)
  }

  /** The whole output as it is stored under the reserved key. */
  function Whole<D>(lib: Library<D>, output: string, found: Option<string>): D
    requires found.Some? ==> lib.objectOf(found.value).Some?
  {
    if found.Some? then lib.wrap(lib.objectOf(found.value).value) else lib.text(TrimSpace(output))
  }

  /** Where a key of the merged data comes from: the last mapping, else a flattened field, else the reserved key, else the form. */
  function Expected<D>(lib: Library<D>, base: map<string, D>, output: string, found: Option<string>, mappings: seq<Mapping>,
                       reserved: string, flatten: bool, k: string): Option<D>
    requires found.Some? ==> lib.objectOf(found.value).Some?
  {
    var last := LastWrite(lib, Source(output, found), mappings, k);
    if last.Some? && !HasPrefix(k, METADATA_PREFIX) then last
    else if flatten && found.Some? && k in lib.objectOf(found.value).value then Some(lib.objectOf(found.value).value[k])
    else if k == reserved then Some(Whole(lib, output, found))
    else Lookup(base, k)
  }

  function Source(output: string, found: Option<string>): string {
    if found.Some? then found.value else output
  }

  function ExpectedMeta<D>(lib: Library<D>, meta: map<string, string>, output: string, found: Option<string>,
                           mappings: seq<Mapping>, k: string): Option<string> {
    var last := LastWrite(lib, Source(output, found), mappings, METADATA_PREFIX + k);
    if last.Some? then Some(lib.show(last.value)) else Lookup(meta, k)
  }

  function Base<D>(lib: Library<D>, original: string): map<string, D> {
    if lib.objectOf(original).Some? then lib.objectOf(original).value else map[]
  }

  function Reserved(key: string): string {
    if key == "" then DEFAULT_KEY else key
  }

  /** `data` is the form with the output merged into it: every key has the value that has priority, and there is no other key. */
  ghost predicate Merges<D>(lib: Library<D>, original: string, output: string, mappings: seq<Mapping>, key: string, flatten: bool,
                            data: map<string, D>) {
    if output == "" then data == Base(lib, original)
    else forall k :: Lookup(data, k) ==
           Expected(lib, Base(lib, original), output, Found(lib, output), mappings, Reserved(key), flatten, k)
  }

  /** The output is merged into the data, and the mappings to metadata into the metadata. */
  method MergeAgentOutput<D>(lib: Library<D>, original: string, meta: map<string, string>, output: string,
                             mappings: seq<Mapping>, key: string, flatten: bool)
    returns (data: map<string, D>, meta': map<string, string>)
    ensures Merges(lib, original, output, mappings, key, flatten, data)
    ensures if output == "" then meta' == meta
            else forall k :: Lookup(meta', k) == ExpectedMeta(lib, meta, output, Found(lib, output), mappings, k)
  {
    var reserved := if key == "" then DEFAULT_KEY else key;
    var base: map<string, D> := map[];
    if lib.objectOf(original).Some? { base := lib.objectOf(original).value; }
    data, meta' := base, meta;
    if output == "" { return; }
    var extracted := ExtractFrom(lib, output);
    data := StoreOutput(lib, base, output, extracted, reserved, flatten);
    data, meta' := ApplyMappings(lib, Source(output, extracted), mappings, data, meta);
  }

  /** The extraction with the JSON library as the judge of candidates. */
  method ExtractFrom<D>(lib: Library<D>, output: string) returns (extracted: Option<string>)
    ensures extracted == Found(lib, output)
  {
    var valid := (s: string) => lib.objectOf(s).Some?;
    extracted := ExtractJsonObject(output, valid);
    FindObjectExtracts(TrimSpace(output), 0, valid);
    ExtractsUnique(TrimSpace(output), valid, extracted, FindObject(TrimSpace(output), 0, valid));
  }

  /** The output under the reserved key, and its fields if they are to be flattened. */
  method StoreOutput<D>(lib: Library<D>, base: map<string, D>, output: string, extracted: Option<string>, reserved: string, flatten: bool)
    returns (data: map<string, D>)
    requires extracted.Some? ==> lib.objectOf(extracted.value).Some?
    ensures forall k :: Lookup(data, k) == Expected(lib, base, output, extracted, [], reserved, flatten, k)
  {
    if extracted.Some? {
      var obj := lib.objectOf(extracted.value).value;
      data := base[reserved := lib.wrap(obj)];
      if flatten { data := data + obj; }
    } else {
      data := base[reserved := lib.text(TrimSpace(output))];
    }
  }

  /** The mapping loop: the last mapping that finds a value decides each target. */
  method ApplyMappings<D>(lib: Library<D>, source: string, mappings: seq<Mapping>, data: map<string, D>, meta: map<string, string>)
    returns (data': map<string, D>, meta': map<string, string>)
    ensures forall k :: Lookup(data', k) ==
              if LastWrite(lib, source, mappings, k).Some? && !HasPrefix(k, METADATA_PREFIX) then LastWrite(lib, source, mappings, k)
              else Lookup(data, k)
    ensures forall k :: Lookup(meta', k) ==
              var last := LastWrite(lib, source, mappings, METADATA_PREFIX + k);
              if last.Some? then Some(lib.show(last.value)) else Lookup(meta, k)
  {
    data', meta' := data, meta;
    for i := 0 to |mappings|
      invariant forall k :: Lookup(data', k) ==
                  if LastWrite(lib, source, mappings[..i], k).Some? && !HasPrefix(k, METADATA_PREFIX)
                  then LastWrite(lib, source, mappings[..i], k) else Lookup(data, k)
      invariant forall k :: Lookup(meta', k) ==
                  var last := LastWrite(lib, source, mappings[..i], METADATA_PREFIX + k);
                  if last.Some? then Some(lib.show(last.value)) else Lookup(meta, k)
    {
      var m := mappings[i];
      forall k { LastWriteNext(lib, source, mappings, i, k); }
      forall k { LastWriteNext(lib, source, mappings, i, METADATA_PREFIX + k); }
      if m.from == "" || m.to == "" { continue; }
      var value := lib.get(source, NormalizePath(m.from));
      if value.None? { continue; }
      if HasPrefix(m.to, METADATA_PREFIX) {
        var k := m.to[|METADATA_PREFIX|..];
        assert m.to == METADATA_PREFIX + k;
        forall k' ensures METADATA_PREFIX + k' == m.to <==> k' == k {
          assert (METADATA_PREFIX + k')[|METADATA_PREFIX|..] == k';
        }
        meta' := meta'[k := lib.show(value.value)];
      } else {
        forall k' ensures METADATA_PREFIX + k' != m.to { assert HasPrefix(METADATA_PREFIX + k', METADATA_PREFIX); }
        data' := data'[m.to := value.value];
      }
    }
    assert mappings[..|mappings|] == mappings;
  }

  lemma LastWriteNext<D>(lib: Library<D>, source: string, mappings: seq<Mapping>, i: nat, to: string)
    requires i < |mappings|
    ensures LastWrite(lib, source, mappings[..i + 1], to) ==
            if mappings[i].to == to && Written(lib, source, mappings[i]).Some? then Written(lib, source, mappings[i])
            else LastWrite(lib, source, mappings[..i], to)
  {
    assert mappings[..i + 1][..i] == mappings[..i];
  }

  // ---- What becomes of the whole output ----

  /** The mapping targets exactly `to` and finds a value. */
  predicate Finds<D>(lib: Library<D>, source: string, m: Mapping, to: string) {
    m.to == to && Written(lib, source, m).Some?
  }

  /** The mapping writes the data key `to`; targets with the metadata prefix go elsewhere. */
  predicate Writes<D>(lib: Library<D>, source: string, m: Mapping, to: string) {
    Finds(lib, source, m, to) && !HasPrefix(to, METADATA_PREFIX)
  }

  /** The mapping at i finds a value for the target, and no later one does. */
  predicate LastFinder<D>(lib: Library<D>, source: string, mappings: seq<Mapping>, i: nat, to: string) {
    && i < |mappings| && Finds(lib, source, mappings[i], to)
    && forall j | i < j < |mappings| :: !Finds(lib, source, mappings[j], to)
  }

  predicate LastWriter<D>(lib: Library<D>, source: string, mappings: seq<Mapping>, i: nat, to: string) {
    LastFinder(lib, source, mappings, i, to) && !HasPrefix(to, METADATA_PREFIX)
  }

  lemma {:induction false} LastWriteIs<D>(lib: Library<D>, source: string, mappings: seq<Mapping>, to: string)
    ensures LastWrite(lib, source, mappings, to).None? <==> forall m | m in mappings :: !Finds(lib, source, m, to)
    ensures forall i: nat | LastFinder(lib, source, mappings, i, to) ::
              LastWrite(lib, source, mappings, to) == Written(lib, source, mappings[i])
  {
    if mappings != [] {
      var front, m := mappings[..|mappings| - 1], mappings[|mappings| - 1];
      LastWriteIs(lib, source, front, to);
      assert mappings == front + [m] && forall x :: x in front + [m] <==> x in front || x == m;
      assert Finds(lib, source, m, to) ==> LastWrite(lib, source, mappings, to).Some?;
      forall i: nat | LastFinder(lib, source, mappings, i, to)
        ensures LastWrite(lib, source, mappings, to) == Written(lib, source, mappings[i])
      {
        if i < |front| { assert LastFinder(lib, source, front, i, to); }
      }
    }
  }

  /** What a metadata key holds: the shown value of the last mapping to it that finds one, or what it held before. */
  lemma MetadataHolds<D>(lib: Library<D>, meta: map<string, string>, output: string, mappings: seq<Mapping>, k: string)
    ensures var source, to := Source(output, Found(lib, output)), "metadata." + k;
            var held := ExpectedMeta(lib, meta, output, Found(lib, output), mappings, k);
            && (forall i: nat | LastFinder(lib, source, mappings, i, to) :: held == Some(lib.show(Written(lib, source, mappings[i]).value)))
            && ((forall m | m in mappings :: !Finds(lib, source, m, to)) ==> held == if k in meta then Some(meta[k]) else None)
  {
    LastWriteIs(lib, Source(output, Found(lib, output)), mappings, METADATA_PREFIX + k);
  }

  /** The fields of the object found in the output. */
  function Fields<D>(lib: Library<D>, output: string): map<string, D> {
    if Found(lib, output).Some? then lib.objectOf(Found(lib, output).value).value else map[]
  }

  /**
   What a key of the data holds after a merge: the value of the last mapping that writes it; without such a
   mapping the flattened field of that name; without either the reserved key holds the whole output, and any other
   key what the form had.
   */
  lemma KeyHolds<D>(lib: Library<D>, original: string, output: string, mappings: seq<Mapping>, key: string, flatten: bool,
                    data: map<string, D>, k: string)
    requires output != "" && Merges(lib, original, output, mappings, key, flatten, data)
    ensures var source, fields, base := Source(output, Found(lib, output)), Fields(lib, output), Base(lib, original);
            && (forall i: nat | LastWriter(lib, source, mappings, i, k) :: k in data && Some(data[k]) == Written(lib, source, mappings[i]))
            && ((forall m | m in mappings :: !Writes(lib, source, m, k)) ==>
                  if flatten && k in fields then k in data && data[k] == fields[k]
                  else if k == Reserved(key) then k in data && data[k] == Whole(lib, output, Found(lib, output))
                  else (k in data <==> k in base) && (k in base ==> data[k] == base[k]))
  {
    var source := Source(output, Found(lib, output));
    assert Lookup(data, k) == Expected(lib, Base(lib, original), output, Found(lib, output), mappings, Reserved(key), flatten, k);
    if !HasPrefix(k, METADATA_PREFIX) { LastWriteIs(lib, source, mappings, k); }
  }

  /** The reserved key is among the data after every merge, with the value above. */
  lemma ReservedKeyHolds<D>(lib: Library<D>, original: string, output: string, mappings: seq<Mapping>, key: string, flatten: bool,
                            data: map<string, D>)
    requires output != "" && Merges(lib, original, output, mappings, key, flatten, data)
    ensures var k, source := Reserved(key), Source(output, Found(lib, output));
            && k in data
            && (forall i: nat | LastWriter(lib, source, mappings, i, k) :: Some(data[k]) == Written(lib, source, mappings[i]))
            && ((forall m | m in mappings :: !Writes(lib, source, m, k)) ==>
                  data[k] == if flatten && k in Fields(lib, output) then Fields(lib, output)[k]
                             else Whole(lib, output, Found(lib, output)))
  {
    var k := Reserved(key);
    KeyHolds(lib, original, output, mappings, key, flatten, data, k);
    assert Lookup(data, k) == Expected(lib, Base(lib, original), output, Found(lib, output), mappings, k, flatten, k);
  }

  /** Something in the configuration of the node can replace the whole output. */
  predicate CanReplace(mappings: seq<Mapping>, key: string, flatten: bool) {
    flatten || (!HasPrefix(Reserved(key), METADATA_PREFIX) && exists m :: m in mappings && m.from != "" && m.to == Reserved(key))
  }

  /** A small supply of JSON values. */
  datatype Json = Num(n: int) | Str(s: string) | Obj(fields: map<string, Json>)

  /** The configuration keeps the whole output, whatever the output and the answers of the libraries. */
  ghost predicate AlwaysKept(mappings: seq<Mapping>, key: string, flatten: bool) {
    forall lib: Library<Json>, original, output, data |
        output != "" && Merges(lib, original, output, mappings, key, flatten, data) ::
      Lookup(data, Reserved(key)) == Some(Whole(lib, output, Found(lib, output)))
  }

  /** A merge has an outcome. */
  lemma MergeExists<D>(lib: Library<D>, original: string, output: string, mappings: seq<Mapping>, key: string, flatten: bool)
    returns (data: map<string, D>)
    requires output != ""
    ensures Merges(lib, original, output, mappings, key, flatten, data)
  {
    var base, source := Base(lib, original), Source(output, Found(lib, output));
    var keys := base.Keys + {Reserved(key)} + Fields(lib, output).Keys + set m | m in mappings :: m.to;
    data := map k | k in keys && Expected(lib, base, output, Found(lib, output), mappings, Reserved(key), flatten, k).Some? ::
      Expected(lib, base, output, Found(lib, output), mappings, Reserved(key), flatten, k).value;
    forall k | k !in keys
      ensures Expected(lib, base, output, Found(lib, output), mappings, Reserved(key), flatten, k).None?
    {
      if !HasPrefix(k, METADATA_PREFIX) {
        LastWriteIs(lib, source, mappings, k);
        forall m | m in mappings ensures !Writes(lib, source, m, k) { assert m.to in keys; }
      }
    }
  }

  /** An output that is a JSON text of an object is found as a whole. */
  lemma WholeFound<D>(lib: Library<D>, v: Value)
    requires v.Object? && Valid(v) && lib.objectOf(Show(v)).Some?
    ensures Found(lib, Show(v)) == Some(Show(v))
  {
    var valid := (s: string) => lib.objectOf(s).Some?;
    assert "" + Show(v) + "" == Show(v);
    FindObjectExtracts(TrimSpace(Show(v)), 0, valid);
    ExtractionUndoesPrinting("", v, "", valid, Found(lib, Show(v)));
  }

  function HexDigit(n: nat): char
    requires n < 16
  {
    "0123456789abcdef"[n]
  }

  /** A text as the body of a string literal. */
  function Pieces(s: string): (ps: seq<Piece>)
    ensures ValidPieces(ps)
  {
    if s == "" then []
    else
      [if s[0] == '"' || s[0] == '\\' then Escaped(s[0])
       else if s[0] < ' ' then Hex(['0', '0', HexDigit(s[0] as nat / 16), HexDigit(s[0] as nat % 16)])
       else Plain(s[0])] + Pieces(s[1..])
  }

  /** The object whose only field has this name and the value 1, as it is printed: {"a":1} for the name a. */
  function OneField(name: string): Value {
    Object("", Member(Pieces(name), ":", Atom("1"), "", false, "", NoMember))
  }

  /** A library that reads this object as it should, and finds its field at the path of that name. */
  function Reading(name: string): Library<Json> {
    Library(s => if s == Show(OneField(name)) then Some(map[name := Num(1)]) else None, fs => Obj(fs), s => Str(s),
            (s, path) => if s == Show(OneField(name)) && path == name then Some(Num(1)) else None, v => "1")
  }

  lemma {:induction false} ReadingWrites(name: string, source: string, mappings: seq<Mapping>, to: string)
    ensures var last := LastWrite(Reading(name), source, mappings, to); last.None? || last == Some(Num(1))
  {
    if mappings != [] { ReadingWrites(name, source, mappings[..|mappings| - 1], to); }
  }

  /** The merge of {"name":1} puts 1 under the reserved key: if the field is flattened there, or a mapping takes it there. */
  lemma FieldReplacesOutput(name: string, mappings: seq<Mapping>, key: string, flatten: bool) returns (data: map<string, Json>)
    requires (flatten && name == Reserved(key))
             || (!HasPrefix(Reserved(key), METADATA_PREFIX)
                 && exists m :: m in mappings && m.from != "" && NormalizePath(m.from) == name && m.to == Reserved(key))
    ensures Merges(Reading(name), "", Show(OneField(name)), mappings, key, flatten, data)
    ensures Lookup(data, Reserved(key)) == Some(Num(1))
    ensures Whole(Reading(name), Show(OneField(name)), Found(Reading(name), Show(OneField(name)))) == Obj(map[name := Num(1)])
  {
    var lib, output, k := Reading(name), Show(OneField(name)), Reserved(key);
    assert Valid(OneField(name)) && output != "";
    WholeFound(lib, OneField(name));
    data := MergeExists(lib, "", output, mappings, key, flatten);
    ReadingWrites(name, output, mappings, k);
    if !HasPrefix(k, METADATA_PREFIX) { LastWriteIs(lib, output, mappings, k); }
    assert Lookup(data, k) == Expected(lib, Base(lib, ""), output, Some(output), mappings, k, flatten, k);
  }

  lemma PrintedField()
    ensures Show(OneField("a")) == "{\"a\":1}"
  {
    assert "a"[1..] == "" && Pieces("a") == [Plain('a')] && [Plain('a')][1..] == [];
    assert ShowPieces([Plain('a')]) == "a";
    assert ShowMembers(NoMember) == "";
    assert Follows("", false, "", "") == "";
    assert ShowString([Plain('a')]) == "\"a\"";
  }

  /** The output {"a":1} under a mapping from "$.a" to "_ai": the field replaces the whole output. */
  lemma MappingReplacesOutput() returns (data: map<string, Json>)
    ensures Merges(Reading("a"), "", "{\"a\":1}", [Mapping("$.a", "_ai")], "", false, data)
    ensures Lookup(data, "_ai") == Some(Num(1))
    ensures Whole(Reading("a"), "{\"a\":1}", Found(Reading("a"), "{\"a\":1}")) == Obj(map["a" := Num(1)])
  {
    PrintedField();
    assert "$.a"[2..] == "a";
    assert Mapping("$.a", "_ai") in [Mapping("$.a", "_ai")];
    data := FieldReplacesOutput("a", [Mapping("$.a", "_ai")], "", false);
  }

  /**
   The comment that the full output is always found under the reserved key holds exactly for nodes that neither
   flatten nor have a complete mapping to that key.
   */
  lemma AlwaysKeptExactly(mappings: seq<Mapping>, key: string, flatten: bool)
    ensures AlwaysKept(mappings, key, flatten) <==> !CanReplace(mappings, key, flatten)
  {
    var k := Reserved(key);
    if CanReplace(mappings, key, flatten) {
      var name := k;
      if !flatten {
        var m :| m in mappings && m.from != "" && m.to == k;
        name := NormalizePath(m.from);
      }
      var data := FieldReplacesOutput(name, mappings, key, flatten);
      assert Show(OneField(name)) != "";
    } else {
      forall lib: Library<Json>, original, output, data |
          output != "" && Merges(lib, original, output, mappings, key, flatten, data)
        ensures Lookup(data, k) == Some(Whole(lib, output, Found(lib, output)))
      {
        ReservedKeyHolds(lib, original, output, mappings, key, flatten, data);
      }
    }
  }
}
