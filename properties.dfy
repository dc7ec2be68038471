/**
 * `SortableProperties`: a `Properties` whose entries live in an
 * insertion-ordered table that its methods update in place.
 */
module Properties {
  import opened Wrappers
  import opened PropsFormat

  /**
   * The loop of `load` that rebuilds a value from the pieces after the
   * key, putting `=` between consecutive pieces.
   */
  method BuildValue(kv: seq<string>) returns (value: string)
    requires |kv| >= 1
    ensures value == Join(kv[1..])
  {
    value := "";
    var i := 1;
    while i < |kv|
      invariant 1 <= i <= |kv|
      invariant value == Join(kv[1..i]) + (if 1 < i < |kv| then "=" else "")
    {
      JoinSnoc(kv[1..i], kv[i]);
      assert kv[1..i + 1] == kv[1..i] + [kv[i]];
      value := value + kv[i];
      if i != |kv| - 1 {
        value := value + "=";
      }
      i := i + 1;
    }
    assert kv[1..i] == kv[1..];
  }

  class SortableProperties {
    var keys: seq<string>
    var table: map<string, string>

    function Contents(): Props
      reads this
    {
      Props(keys, table)
    }

    ghost predicate Valid()
      reads this
    {
      Wf(Contents())
    }

    constructor ()
      ensures Valid() && Contents() == Empty
    {
      keys := [];
      table := map[];
    }

    function Get(key: string): (r: Option<string>)
      reads this
      ensures r.Some? <==> key in table
      ensures r.Some? ==> r.value == table[key]
    {
      PropsFormat.Get(Contents(), key)
    }

    function ContainsKey(key: string): (b: bool)
      reads this
      requires Valid()
      ensures b <==> key in table
      ensures b <==> key in keys
    {
      key in table
    }

    /** `containsValue(value)` and `contains(value)` */
    function ContainsValue(value: string): (b: bool)
      reads this
      ensures b <==> exists k :: k in table && table[k] == value
    {
      value in table.Values
    }

    /** `size()`: the number of distinct keys. */
    function Size(): (n: nat)
      reads this
      requires Valid()
      ensures n == |table| && n == |keys|
    {
      SizeIsKeyCount(Contents());
      |table|
    }

    function IsEmpty(): (b: bool)
      reads this
      requires Valid()
      ensures b <==> table == map[]
      ensures b <==> keys == []
    {
      SizeIsKeyCount(Contents());
      |table| == 0
    }

    /** `keys()` and `propertyNames()`: every key once, in first-insertion order. */
    function Keys(): (ks: seq<string>)
      reads this
      requires Valid()
      ensures Distinct(ks) && |ks| == Size()
      ensures forall k :: k in ks <==> k in table
    {
      keys
    }

    /** `elements()`: the values in key order. */
    function Elements(): (vs: seq<string>)
      reads this
      requires Valid()
      ensures |vs| == |keys|
      ensures forall i :: 0 <= i < |keys| ==> keys[i] in table && vs[i] == table[keys[i]]
    {
      ValuesOf(table, keys)
    }

    /** `stringPropertyNames()`: the keys as a set. */
    function StringPropertyNames(): (names: set<string>)
      reads this
      requires Valid()
      ensures forall k :: k in names <==> k in keys
    {
      table.Keys
    }

    /** `getProperty(key)`: None stands for null. */
    function GetProperty(key: string): (r: Option<string>)
      reads this
      ensures r.Some? <==> key in table
      ensures r.Some? ==> r.value == table[key]
    {
      if key in table then Some(table[key]) else None
    }

    /** `getProperty(key, defaultValue)`. */
    function GetPropertyOr(key: string, defaultValue: string): (r: string)
      reads this
      ensures key !in table ==> r == defaultValue
      ensures key in table ==> r == table[key]
    {
      match GetProperty(key)
      case None => defaultValue
      case Some(v) => v
    }

    /** `put(key, value)` and `setProperty(key, value)`: returns the previous value. */
    method Put(key: string, value: string) returns (previous: Option<string>)
      requires Valid()
      modifies this
      ensures Valid()
      ensures Contents() == PropsFormat.Put(old(Contents()), key, value)
      ensures previous == PropsFormat.Get(old(Contents()), key)
    {
      previous := Get(key);
      if key !in table {
        keys := keys + [key];
      }
      table := table[key := value];
    }

    /** `remove(key)`: returns the removed value. */
    method Remove(key: string) returns (previous: Option<string>)
      requires Valid()
      modifies this
      ensures Valid()
      ensures Contents() == PropsFormat.Remove(old(Contents()), key)
      ensures previous == PropsFormat.Get(old(Contents()), key)
      // the other keys keep their insertion order
      ensures forall i :: 0 <= i < |old(keys)| && old(keys)[i] == key ==>
                keys == old(keys)[..i] + old(keys)[i + 1..]
    {
      ghost var before := Contents();
      previous := Get(key);
      WithoutDistinct(keys, key);
      keys := Without(keys, key);
      table := table - {key};
      forall i | 0 <= i < |before.keys| && before.keys[i] == key
        ensures keys == before.keys[..i] + before.keys[i + 1..]
      {
        RemoveKeepsOrder(before, key, i);
      }
    }

    method Clear()
      modifies this
      ensures Valid() && Contents() == Empty
    {
      keys := [];
      table := map[];
    }

    /** `load(reader)` over the text the reader delivers. */
    method Load(text: string)
      requires Valid()
      modifies this
      ensures Valid()
      ensures Contents() == LoadText(old(Contents()), text)
    {
      var lines := ReadLines(text);
      var i := 0;
      while i < |lines| && lines[i] != ""
        invariant 0 <= i <= |lines|
        invariant forall j :: 0 <= j < i ==> lines[j] != ""
        invariant Valid()
        invariant Contents() == ApplyLines(old(Contents()), lines[..i])
      {
        ApplyLinesSnoc(old(Contents()), lines, i);
        LoadLine(lines[i]);
        i := i + 1;
      }
      UntilBlankStops(lines, i);
    }

    /** The body of `load`'s loop for one line. */
    method LoadLine(line: string)
      requires Valid()
      modifies this
      ensures Valid()
      ensures Contents() == ApplyLine(old(Contents()), line)
    {
      ApplyLineBySplit(Contents(), line);
      if !(|line| > 0 && line[0] == '#') {
        var kv := JavaSplit(line);
        if |kv| >= 1 {
          var key := kv[0];
          var value := BuildValue(kv);
          var _ := Put(key, value);
        }
      }
    }

    /** `store(writer, comments)`: the text written; `date` is the header's `new Date()`. */
    method Store(date: string, sep: string) returns (text: string)
      requires Valid()
      ensures text == StoreText(Contents(), date, sep)
    {
      ghost var lines := StoreLines(Contents(), date);
      text := "#" + date + sep;
      assert lines[..1] == [lines[0]];
      var i := 0;
      while i < |keys|
        invariant 0 <= i <= |keys|
        invariant text == Render(lines[..i + 1], sep)
      {
        var key := keys[i];
        WfKeyInTable(Contents(), i);
        var val := table[key];
        RenderSnoc(lines[..i + 1], lines[i + 1], sep);
        assert lines[..i + 2] == lines[..i + 1] + [lines[i + 1]];
        text := text + (key + "=" + val) + sep;
        i := i + 1;
      }
      assert lines[..|keys| + 1] == lines;
    }

    /** `list(out)`: the lines printed. */
    method List() returns (out: seq<string>)
      requires Valid()
      ensures out == ListLines(Contents())
    {
      ghost var p := Contents();
      out := [ListHeader];
      var i := 0;
      while i < |keys|
        invariant 0 <= i <= |keys|
        invariant out == [ListHeader] + ListEntries(p, p.keys[..i])
      {
        WfKeyInTable(p, i);
        ListEntriesSnoc(p, p.keys, i);
        var line := ListOne(keys[i]);
        out := out + line;
        i := i + 1;
      }
      assert p.keys[..|p.keys|] == p.keys;
    }

    /** What `list`'s per-key action prints for key `k`. */
    method ListOne(k: string) returns (line: seq<string>)
      requires k in table
      ensures line == ListLine(Contents(), k)
    {
      line := [];
      if k != "" {
        var value := table[k];
        if |value| > 40 {
          value := value[..37] + "...";
        }
        line := [k + "=" + value];
      }
    }
  }
}
