/** The sanitizer of `sanitizer.go`: an object whose budget is spent along the recursion. */
module Sanitizer {
  import opened Bytes
  import opened FreshKeys
  import opened JsonDepth
  import opened Sanitizing
  import opened SanitizingOutputs
  import SqlScanner

  /** An output map, filled entry by entry. */
  class OutputMap<V> {
    var entries: seq<Entry<V>>

    constructor ()
      ensures entries == []
    {
      entries := [];
    }

    predicate Has(key: string)
      reads this
    {
      key in Keys(entries)
    }

    method Put(key: string, value: V)
      requires !Has(key)
      modifies this
      ensures entries == old(entries) + [Entry(key, value)]
    {
      entries := entries + [Entry(key, value)];
    }
  }

  class Sanitizer {
    const env: Env
    const config: Config
    var remaining: int

    constructor (env: Env, config: Config)
      ensures this.env == env && this.config == config && remaining == config.maxItems
    {
      this.env, this.config, this.remaining := env, config, config.maxItems;
    }

    method Text(input: string, depth: nat) returns (out: string)
      modifies this`remaining
      ensures (out, remaining) == TextAt(env, config, Every, input, depth, old(remaining))
      decreases Room(config, depth), 0
    {
      hide DepthAllowed, ValidUtf8, NativeAt, NativeEntries, NativeItems;
      if IsMarker(input) { return input; }
      if depth > config.maxDepth || |input| > config.maxStringBytes { return LIMIT; }
      if !ValidUtf8(input) { return ENCODING_MARK; }
      var decoded := input;
      if !env.looksLikeJson(input) {
        var layers := env.decodeLayers(input);
        if layers.None? || !ValidUtf8(layers.value) { return ENCODING_MARK; }
        decoded := layers.value;
      }
      if |decoded| > config.maxStringBytes { return LIMIT; }
      if IsMarker(decoded) { return decoded; }
      if env.looksLikeJson(decoded) {
        var allowed := JsonDepthAllowed(decoded, depth, config.maxDepth);
        if !allowed { return LIMIT; }
        var value := env.parse(decoded);
        if value.None? { return JSON_MARK; }
        var result := NativeValue(value.value, depth + 1, "");
        var encoded := env.marshal(result);
        if encoded.None? || |encoded.value| > config.maxStringBytes { return LIMIT; }
        return encoded.value;
      }
      return env.redactText(decoded);
    }

    method SqlText(input: string) returns (out: string)
      ensures out == Sql(env, config, input)
    {
      if IsMarker(input) { return input; }
      if |input| > config.maxStringBytes || !ValidUtf8(input) { return LIMIT; }
      var decoded := env.decodeLayers(input);
      if decoded.None? { return ENCODING_MARK; }
      var shape, ok := SqlScanner.SanitizeSql(decoded.value);
      if !ok { return SQL_MARK; }
      return env.redactText(shape);
    }

    method NativeValue(input: Native, depth: nat, key: string) returns (out: Native)
      modifies this`remaining
      ensures (out, remaining) == NativeAt(env, config, Every, input, depth, key, old(remaining))
      ensures NativeLeaves(env, out, Room(config, depth))
      decreases Room(config, depth), 1, input
    {
      hide TextAt, NativeEntries, NativeItems, Sql, Number, NativeLeaves;
      NativeOnlyLeaves(env, config, Every, input, depth, key, remaining);
      if env.sensitiveKey(key) { return NString(MASK); }
      if depth > config.maxDepth || remaining <= 0 { return NString(LIMIT); }
      remaining := remaining - 1;
      if env.sqlKey(key) {
        if input.NString? {
          var shape := SqlText(input.s);
          return NString(shape);
        }
        return NString(SQL_MARK);
      }
      match input {
        case NNull => return input;
        case NBool(_) => return input;
        case NString(s) =>
          var text := Text(s, depth);
          return NString(text);
        case NNumber(text) => return Number(env, text);
        case NObject(entries) =>
          if |entries| > config.maxItems || |entries| > remaining { return NString(LIMIT); }
          var done := NativeMap(input, depth);
          return NObject(done);
        case NArray(items) =>
          if |items| > config.maxItems || |items| > remaining { return NString(LIMIT); }
          var done := NativeSlice(input, depth);
          return NArray(done);
      }
    }

    method NativeMap(input: Native, depth: nat) returns (done: seq<Entry<Native>>)
      requires input.NObject?
      modifies this`remaining
      ensures (done, remaining) == NativeEntries(env, config, Every, input, 0, 0, depth, [], old(remaining))
      decreases Room(config, depth), 1, input, 0
    {
      hide NativeAt, CleanKey, Fresh, Name;
      var out := new OutputMap<Native>();
      var index: nat := 0;
      for i := 0 to |input.entries|
        invariant NativeEntries(env, config, Every, input, 0, 0, depth, [], old(remaining))
               == NativeEntries(env, config, Every, input, i, index, depth, out.entries, remaining)
      {
        var key := input.entries[i].key;
        var cleanKey := CleanKey(env, config, key, index);
        var redactedKey := cleanKey != key;
        index := index + 1;
        if out.Has(cleanKey) {
          index, cleanKey := FindFresh(Keys(out.entries), index);
          index := index + 1;
        }
        if redactedKey {
          out.Put(cleanKey, NString(MASK));
        } else {
          var value := NativeValue(input.entries[i].value, depth + 1, key);
          out.Put(cleanKey, value);
        }
      }
      return out.entries;
    }

    method NativeSlice(input: Native, depth: nat) returns (done: seq<Native>)
      requires input.NArray?
      modifies this`remaining
      ensures (done, remaining) == NativeItems(env, config, Every, input, 0, depth, [], old(remaining))
      decreases Room(config, depth), 1, input, 0
    {
      hide NativeAt;
      done := [];
      for i := 0 to |input.items|
        invariant NativeItems(env, config, Every, input, 0, depth, [], old(remaining))
               == NativeItems(env, config, Every, input, i, depth, done, remaining)
      {
        var value := NativeValue(input.items[i], depth + 1, "");
        done := done + [value];
      }
    }

    method CleanValue(input: Value, depth: nat, key: string) returns (out: Value)
      modifies this`remaining
      ensures (out, remaining) == ValueAt(env, config, input, depth, key, old(remaining))
      ensures ValueLeaves(env, out, JsonLevels(config))
      decreases Room(config, depth), input
    {
      hide TextAt, MapInto, SliceInto, Sql, ValueLeaves;
      ValueOnlyLeaves(env, config, input, depth, key, remaining);
      if env.sensitiveKey(key) { return VStr(MASK); }
      if depth > config.maxDepth || remaining <= 0 { return VStr(LIMIT); }
      remaining := remaining - 1;
      if env.sqlKey(key) {
        if !input.VStr? { return VStr(SQL_MARK); }
        var shape := SqlText(input.s);
        return VStr(shape);
      }
      match input {
        case VEmpty => return input;
        case VStr(s) =>
          var text := Text(s, depth);
          return VStr(text);
        case VInt(n) =>
          var raw := env.formatInt(n);
          var cleaned := env.redactText(raw);
          return if cleaned != raw then VStr(cleaned) else input;
        case VDouble(bits) =>
          var raw := env.formatDouble(bits);
          var cleaned := env.redactText(raw);
          return if cleaned != raw then VStr(cleaned) else input;
        case VBool(_) => return input;
        case VBytes => return VStr(BYTES_MARK);
        case VMap(entries) =>
          if |entries| > config.maxItems || |entries| > remaining { return VStr(LIMIT); }
          var done := CleanMapInto(input, depth);
          return VMap(done);
        case VSlice(items) =>
          if |items| > config.maxItems || |items| > remaining { return VStr(LIMIT); }
          var done := CleanSlice(input, depth);
          return VSlice(done);
      }
    }

    method CleanMapInto(input: Value, depth: nat) returns (done: seq<Entry<Value>>)
      requires input.VMap?
      modifies this`remaining
      ensures (done, remaining) == MapInto(env, config, input, 0, 0, depth, [], old(remaining))
      decreases Room(config, depth), input, 0
    {
      hide ValueAt, CleanKey, Fresh, Name;
      var output := new OutputMap<Value>();
      var index: nat := 0;
      for i := 0 to |input.entries|
        invariant MapInto(env, config, input, 0, 0, depth, [], old(remaining))
               == MapInto(env, config, input, i, index, depth, output.entries, remaining)
      {
        var key := input.entries[i].key;
        var cleanKey := CleanKey(env, config, key, index);
        var redactedKey := cleanKey != key;
        index := index + 1;
        if output.Has(cleanKey) {
          index, cleanKey := FindFresh(Keys(output.entries), index);
        }
        if redactedKey {
          output.Put(cleanKey, VStr(MASK));
        } else {
          var value := CleanValue(input.entries[i].value, depth + 1, key);
          output.Put(cleanKey, value);
        }
      }
      return output.entries;
    }

    method CleanSlice(input: Value, depth: nat) returns (done: seq<Value>)
      requires input.VSlice?
      modifies this`remaining
      ensures (done, remaining) == SliceInto(env, config, input, 0, depth, [], old(remaining))
      decreases Room(config, depth), input, 0
    {
      hide ValueAt;
      done := [];
      for i := 0 to |input.items|
        invariant SliceInto(env, config, input, 0, depth, [], old(remaining))
               == SliceInto(env, config, input, i, depth, done, remaining)
      {
        var value := CleanValue(input.items[i], depth + 1, "");
        done := done + [value];
      }
    }

    method CleanAttributes(input: seq<Entry<Value>>) returns (out: seq<Entry<Value>>)
      modifies this`remaining
      ensures (out, remaining) == Attributes(env, config, input, old(remaining))
      ensures EntriesLeave(env, out, JsonLevels(config)) || out == [Entry("elven.redaction", VStr("[REDACTED:limit]"))]
    {
      hide EntriesLeave;
      AttributesOnlyLeave(env, config, input, remaining);
      if |input| > config.maxItems { return [Entry("elven.redaction", VStr(LIMIT))]; }
      out := CleanMapInto(VMap(input), 0);
    }
  }
}
