/** Loading `.env.local` before the table check (app/scripts/check-tables.ts): every
    line of the form `KEY=value` sets `KEY` unless the environment already holds a
    non-empty value for it; blank lines and `#` comments are skipped. */
module EnvFile {
  import opened Wrappers
  import opened Strings

  /** One `KEY=value` assignment read from a line. */
  datatype Entry = Entry(key: string, value: string)

  /** The process environment; a missing name is `undefined`. */
  type Env = map<string, string>

  const CommentMarker := "#"
  const Assign := "="
  const LineBreak := "\n"

  predicate IsQuote(c: char) {
    c == '"' || c == '\''
  }

  /** `value.replace(/^["']|["']$/g, "")`: one quote, of either kind, dropped from
      each end; a lone quote is dropped once. */
  function Unquote(v: string): (r: string)
    ensures |v| >= 2 && IsQuote(v[0]) && IsQuote(v[|v| - 1]) ==> r == v[1..|v| - 1]
    ensures |v| >= 1 && IsQuote(v[0]) && !IsQuote(v[|v| - 1]) ==> r == v[1..]
    ensures |v| >= 1 && !IsQuote(v[0]) && IsQuote(v[|v| - 1]) ==> r == v[..|v| - 1]
    ensures (v == [] || (!IsQuote(v[0]) && !IsQuote(v[|v| - 1]))) ==> r == v
    ensures |v| == 1 && IsQuote(v[0]) ==> r == []
  {
    var lo := if |v| > 0 && IsQuote(v[0]) then 1 else 0;
    var hi := if |v| > lo && IsQuote(v[|v| - 1]) then |v| - 1 else |v|;
    v[lo..hi]
  }

  /** The assignment on one line of the file, if it has one: the trimmed line must
      be non-empty, not a comment, and hold an "=" with a name before it. The name
      is the trimmed text before the first "=", the value the trimmed text after
      it, unquoted. */
  function ParseLine(line: string): (r: Option<Entry>)
  {
    var trimmed := Trim(line);
    if trimmed == [] || StartsWith(trimmed, CommentMarker) then None
    else
      var parts := Split(trimmed, Assign);
      var key := parts[0];
      if key == [] || |parts| == 1 then None
      else Some(Entry(Trim(key), Unquote(Trim(Join(parts[1..], Assign)))))
  }

  /** The pieces after the first one, joined back, are the text after the first
      separator. */
  lemma SplitTail(s: string, sep: string)
    requires |sep| > 0
    ensures IndexOfFrom(s, sep, 0).None? <==> |Split(s, sep)| == 1
    ensures IndexOfFrom(s, sep, 0).Some? ==>
              var i := IndexOfFrom(s, sep, 0).value;
              && Split(s, sep)[0] == s[..i]
              && Join(Split(s, sep)[1..], sep) == s[i + |sep|..]
  {
    match IndexOfFrom(s, sep, 0)
    case None =>
    case Some(i) =>
      var rest := Split(s[i + |sep|..], sep);
      assert Split(s, sep) == [s[..i]] + rest;
      assert Split(s, sep)[1..] == rest;
  }

  /** A line assigns exactly when its trimmed text is not blank, not a comment, and
      has an "=" after at least one character; the name and the value are the
      trimmed text around the first "=". */
  lemma ParseLineSpec(line: string)
    ensures var t := Trim(line);
            var eq := IndexOfFrom(t, Assign, 0);
            && (ParseLine(line).Some? <==> !StartsWith(t, CommentMarker) && eq.Some? && eq.value > 0)
            && (ParseLine(line).Some? ==>
                  ParseLine(line).value == Entry(Trim(t[..eq.value]), Unquote(Trim(t[eq.value + 1..]))))
  {
    var t := Trim(line);
    SplitTail(t, Assign);
    if t == [] {
      assert IndexOfFrom(t, Assign, 0).None?;
    }
  }

  /** `if (!process.env[key]) process.env[key] = value`. */
  function Set(env: Env, e: Entry): (r: Env)
    ensures r.Keys == env.Keys + {e.key}
    ensures forall k :: k in env && k != e.key ==> r[k] == env[k]
    ensures e.key in env && env[e.key] != "" ==> r[e.key] == env[e.key]
    ensures (e.key !in env || env[e.key] == "") ==> r[e.key] == e.value
  {
    if e.key !in env || env[e.key] == "" then env[e.key := e.value] else env
  }

  /** The assignments of the file's lines, in order. */
  function Entries(lines: seq<string>): seq<Entry> {
    Collect(lines, ParseLine)
  }

  /** The assignments applied in order. */
  function SetAll(env: Env, entries: seq<Entry>): Env
    decreases |entries|
  {
    if entries == [] then env else SetAll(Set(env, entries[0]), entries[1..])
  }

  /** `envFile.split("\n").forEach(...)`. */
  function Load(env: Env, file: string): Env {
    SetAll(env, Entries(Split(file, LineBreak)))
  }

  /** The values assigned to `key`, in order. */
  function ValuesFor(entries: seq<Entry>, key: string): (vs: seq<string>)
    ensures |vs| <= |entries|
    decreases |entries|
  {
    if entries == [] then []
    else (if entries[0].key == key then [entries[0].value] else []) + ValuesFor(entries[1..], key)
  }

  /** The first non-empty string of `vs`, or "" when there is none. */
  function FirstNonEmpty(vs: seq<string>): string
    decreases |vs|
  {
    if vs == [] then ""
    else if vs[0] != "" then vs[0]
    else FirstNonEmpty(vs[1..])
  }

  lemma {:induction false} FirstNonEmptyIs(vs: seq<string>)
    ensures FirstNonEmpty(vs) == "" <==> forall j :: 0 <= j < |vs| ==> vs[j] == ""
    ensures FirstNonEmpty(vs) != "" ==>
              exists i :: 0 <= i < |vs| && vs[i] == FirstNonEmpty(vs) && forall j :: 0 <= j < i ==> vs[j] == ""
    decreases |vs|
  {
    if vs != [] && vs[0] == "" {
      FirstNonEmptyIs(vs[1..]);
      var v := FirstNonEmpty(vs[1..]);
      if v != "" {
        var i :| 0 <= i < |vs[1..]| && vs[1..][i] == v && forall j :: 0 <= j < i ==> vs[1..][j] == "";
        assert vs[i + 1] == v;
        assert forall j :: 0 <= j < i + 1 ==> vs[j] == "" by {
          forall j | 0 <= j < i + 1 ensures vs[j] == "" {
            if j > 0 {
              assert vs[j] == vs[1..][j - 1];
            }
          }
        }
      }
      if forall j :: 0 <= j < |vs[1..]| ==> vs[1..][j] == "" {
        assert forall j :: 0 <= j < |vs| ==> vs[j] == "" by {
          forall j | 0 <= j < |vs| ensures vs[j] == "" {
            if j > 0 {
              assert vs[j] == vs[1..][j - 1];
            }
          }
        }
      }
    }
  }

  /** A non-empty value already in the environment is never replaced. */
  lemma {:induction false} SetAllKeeps(env: Env, entries: seq<Entry>, key: string)
    requires key in env && env[key] != ""
    ensures key in SetAll(env, entries) && SetAll(env, entries)[key] == env[key]
    decreases |entries|
  {
    if entries != [] {
      SetAllKeeps(Set(env, entries[0]), entries[1..], key);
    }
  }

  /** A name no line assigns is left as it was. */
  lemma {:induction false} SetAllUntouched(env: Env, entries: seq<Entry>, key: string)
    requires ValuesFor(entries, key) == []
    ensures key in SetAll(env, entries) <==> key in env
    ensures key in env ==> SetAll(env, entries)[key] == env[key]
    decreases |entries|
  {
    if entries != [] {
      SetAllUntouched(Set(env, entries[0]), entries[1..], key);
    }
  }

  /** A name without a non-empty value ends up with the first non-empty value the
      lines assign to it, or "" when they assign only "". */
  lemma {:induction false} SetAllFirst(env: Env, entries: seq<Entry>, key: string)
    requires key !in env || env[key] == ""
    requires ValuesFor(entries, key) != []
    ensures key in SetAll(env, entries)
    ensures SetAll(env, entries)[key] == FirstNonEmpty(ValuesFor(entries, key))
    decreases |entries|
  {
    var e := entries[0];
    var next := Set(env, e);
    var rest := ValuesFor(entries[1..], key);
    assert SetAll(env, entries) == SetAll(next, entries[1..]);
    if e.key != key {
      assert ValuesFor(entries, key) == rest;
      SetAllFirst(next, entries[1..], key);
    } else {
      assert next[key] == e.value;
      assert ValuesFor(entries, key) == [e.value] + rest;
      if e.value != "" {
        SetAllKeeps(next, entries[1..], key);
      } else if rest == [] {
        SetAllUntouched(next, entries[1..], key);
      } else {
        SetAllFirst(next, entries[1..], key);
        assert ValuesFor(entries, key)[1..] == rest;
      }
    }
  }
}
