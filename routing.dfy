/**
 * How multi_receive turns one event into a record for one buffer: the tag
 * (hash_filed values, or the host and file/path fallback), the buffer index
 * taken from the tag's hash, and the `lib` / `project` fields added to the
 * record. Everything here is a function of the event and the configuration.
 */
module Routing {
  import opened Common

  /** PLUGIN_VERSION, reported as `$lib_version`. */
  const PluginVersion: string := "0.1.2"

  /** The configuration multi_receive reads. */
  datatype Config = Config(
    urlCount: nat,                      // @url.length
    project: Option<string>,            // @project
    hashFiled: Option<seq<string>>,     // @hash_filed, field references in configured order
    statusReport: bool)                 // @enable_filebeat_status_report

  /**
   * buffer_index: `tag.hash % @url.length`. For a positive divisor Ruby's
   * floored `%` is Dafny's Euclidean `%`, never negative, so the index is a
   * valid buffer. With no urls the division raises ZeroDivisionError (None).
   */
  function BufferIndex(hash: int, n: nat): (r: Option<nat>)
    ensures r.None? <==> n == 0
    ensures r.Some? ==> r.value < n
  {
    if n == 0 then None else Some(hash % n)
  }

  /** The string-append loop of concat_tag_from_hash_filed: each field's text, appended in order. */
  function ConcatFields(fields: seq<string>, e: Event): string
  {
    if fields == [] then ""
    else ConcatFields(fields[..|fields| - 1], e) + ToS(Get(e, fields[|fields| - 1]))
  }

  /** concat_tag_from_hash_filed: nil unless hash_filed is set and non-empty. */
  function ConcatTag(hashFiled: Option<seq<string>>, e: Event): (r: Option<string>)
    ensures r.None? <==> hashFiled.None? || hashFiled.value == []
  {
    if hashFiled.Some? && hashFiled.value != [] then Some(ConcatFields(hashFiled.value, e)) else None
  }

  /** Appending fields to the configuration appends their text to the tag. */
  lemma {:induction false} ConcatFieldsAppend(f1: seq<string>, f2: seq<string>, e: Event)
    ensures ConcatFields(f1 + f2, e) == ConcatFields(f1, e) + ConcatFields(f2, e)
    decreases |f2|
  {
    if f2 == [] {
      assert f1 + f2 == f1;
    } else {
      assert (f1 + f2)[..|f1 + f2| - 1] == f1 + f2[..|f2| - 1];
      ConcatFieldsAppend(f1, f2[..|f2| - 1], e);
    }
  }

  /** The tag depends on nothing but the hash_filed fields: events that agree on them get the same tag. */
  lemma {:induction false} ConcatFieldsAgree(fields: seq<string>, e1: Event, e2: Event)
    requires forall f :: f in fields ==> Get(e1, f) == Get(e2, f)
    ensures ConcatFields(fields, e1) == ConcatFields(fields, e2)
    decreases |fields|
  {
    if fields != [] {
      ConcatFieldsAgree(fields[..|fields| - 1], e1, e2);
    }
  }

  /** filebeat_input?: `[agent][type]` or `[@metadata][beat]` is "filebeat". */
  predicate IsFilebeat(e: Event)
  {
    Get(e, "[agent][type]") == Some("filebeat") || Get(e, "[@metadata][beat]") == Some("filebeat")
  }

  /** The tag multi_receive hashes: the hash_filed concatenation, else the source fallback. */
  function DeriveTag(e: Event, hashFiled: Option<seq<string>>): (r: Option<string>)
    ensures hashFiled.Some? && hashFiled.value != [] ==> r == Some(ConcatFields(hashFiled.value, e))
    ensures r.None? <==>
      (hashFiled.None? || hashFiled.value == []) && !IsFilebeat(e) && (Get(e, "host").None? || Get(e, "path").None?)
    ensures (hashFiled.None? || hashFiled.value == []) && IsFilebeat(e) ==>
      r == Some(ToS(Get(e, "[host][name]")) + ToS(Get(e, "[log][file][path]")))
    ensures (hashFiled.None? || hashFiled.value == []) && !IsFilebeat(e) && Get(e, "host").Some? && Get(e, "path").Some? ==>
      r == Some(Get(e, "host").value + Get(e, "path").value)
  {
    var tag := ConcatTag(hashFiled, e);
    if IsFilebeat(e) then
      if tag.None? then Some(ToS(Get(e, "[host][name]")) + ToS(Get(e, "[log][file][path]"))) else tag
    else if Get(e, "host").Some? && Get(e, "path").Some? && tag.None? then
      Some(ToS(Get(e, "host")) + ToS(Get(e, "path")))
    else tag
  }

  /**
   * `$lib_detail`: "host##file" for filebeat input ("#{host}###{file}" is
   * host, "##", file), "host##path" when both are set, otherwise empty.
   */
  function LibDetail(e: Event): string
  {
    if IsFilebeat(e) then ToS(Get(e, "[host][name]")) + "##" + ToS(Get(e, "[log][file][path]"))
    else if Get(e, "host").Some? && Get(e, "path").Some? then ToS(Get(e, "host")) + "##" + ToS(Get(e, "path"))
    else ""
  }

  /** The `lib` object added to every record. */
  function LibField(libDetail: string): Json
  {
    JObj(map[
      "$lib" := JStr("Logstash"),
      "$lib_version" := JStr(PluginVersion),
      "$lib_method" := JStr("tools"),
      "$lib_detail" := JStr(libDetail)])
  }

  /** `record["lib"] = ...` and `record["project"] = @project if @project != nil`; every other field is kept. */
  function Enrich(record: Record, libDetail: string, project: Option<string>): (r: Record)
    ensures r.Keys == record.Keys + {"lib"} + (if project.Some? then {"project"} else {})
    ensures r["lib"] == LibField(libDetail)
    ensures project.Some? ==> r["project"] == JStr(project.value)
    ensures forall k :: k in record && k != "lib" && (project.None? || k != "project") ==> r[k] == record[k]
  {
    var withLib := record["lib" := LibField(libDetail)];
    if project.Some? then withLib["project" := JStr(project.value)] else withLib
  }

  /** `JSON.parse(e.get("message"))`; `parse` is the JSON library, which fails on malformed text. A missing message makes JSON.parse raise. */
  function ParseMessage(e: Event, parse: string -> Option<Json>): Option<Json>
  {
    match Get(e, "message")
    case None => None
    case Some(m) => parse(m)
  }

  /** What happens to one event: it enters buffer `index` as `record`, or it is counted as a parse error. */
  datatype Outcome = Buffered(index: nat, record: Record) | ParseError

  /**
   * The begin/rescue body of multi_receive for one event. Anything that raises
   * is a parse error: a message that does not parse, a parsed value that is not
   * a JSON object (`record["lib"] = ...` raises on it), or no urls at all.
   */
  function Process(e: Event, cfg: Config, parse: string -> Option<Json>, hash: Option<string> -> int): (o: Outcome)
    ensures o.ParseError? <==>
      ParseMessage(e, parse).None? || !ParseMessage(e, parse).value.JObj? || cfg.urlCount == 0
    ensures o.Buffered? ==> o.index < cfg.urlCount
    ensures o.Buffered? ==> "lib" in o.record && o.record["lib"] == LibField(LibDetail(e))
  {
    match ParseMessage(e, parse)
    case None => ParseError
    case Some(v) =>
      if !v.JObj? then ParseError
      else
        match BufferIndex(hash(DeriveTag(e, cfg.hashFiled)), cfg.urlCount)
        case None => ParseError
        case Some(i) => Buffered(i, Enrich(v.fields, LibDetail(e), cfg.project))
  }

  /**
   * Equal tags select the same buffer: with hash_filed configured, two events
   * that agree on those fields and are both buffered go to the same buffer.
   */
  lemma SameHashFieldsSameBuffer(e1: Event, e2: Event, cfg: Config, parse: string -> Option<Json>, hash: Option<string> -> int)
    requires cfg.hashFiled.Some? && cfg.hashFiled.value != []
    requires forall f :: f in cfg.hashFiled.value ==> Get(e1, f) == Get(e2, f)
    requires Process(e1, cfg, parse, hash).Buffered? && Process(e2, cfg, parse, hash).Buffered?
    ensures Process(e1, cfg, parse, hash).index == Process(e2, cfg, parse, hash).index
  {
    ConcatFieldsAgree(cfg.hashFiled.value, e1, e2);
  }

  /** The (lib_detail, offset) that collect_filebeat_status records for the event, if it records one. */
  function StatusUpdate(e: Event, cfg: Config, parse: string -> Option<Json>): (u: Option<(string, Option<string>)>)
    ensures u.Some? <==> cfg.statusReport && ParseMessage(e, parse).Some? && IsFilebeat(e)
    ensures u.Some? ==> u.value.1 == Get(e, "[log][offset]")
  {
    if cfg.statusReport && ParseMessage(e, parse).Some? && IsFilebeat(e)
    then Some((LibDetail(e), Get(e, "[log][offset]")))
    else None
  }
}
