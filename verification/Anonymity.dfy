/** A merchant never learns who the client is: the guard on names, before and
    after a payload is built. */
module Anonymity {
  import opened Basics
  import opened Text

  const FORBIDDEN_KEYS: set<string> := {
    "client", "client_id", "customer", "customer_id", "b2core_id", "sub", "account_number",
    "display_name", "full_name", "email", "phone", "sender_id", "uploaded_by_id", "user",
    "user_id", "created_by", "created_by_id", "actor", "actor_label", "ip", "last_login_ip",
    "merchant_selected", "merchant_selected_id", "is_internal_note", "notes"
  }

  const FORBIDDEN_SUBSTRINGS: seq<string> := [
    "client", "customer", "b2core", "email", "phone", "account_number", "display_name",
    "full_name", "sender_id", "uploaded_by_id", "identity", "internal_note", "audit"
  ]

  const FORBIDDEN_SOURCES: set<string> := FORBIDDEN_KEYS + {"masked_label"}

  function Lower(u: Unicode, s: string): string {
    if s == [] then [] else u.lower(s[0]) + Lower(u, s[1..])
  }

  function Normalise(u: Unicode, key: string): string {
    Lower(u, Strip(u, key))
  }

  predicate OccursAt(s: string, token: string, i: int) {
    0 <= i <= |s| - |token| && s[i..i + |token|] == token
  }

  predicate Contains(s: string, token: string) {
    exists i :: 0 <= i <= |s| && OccursAt(s, token, i)
  }

  predicate MatchesSubstring(u: Unicode, key: string) {
    exists k :: 0 <= k < |FORBIDDEN_SUBSTRINGS| && Contains(Normalise(u, key), FORBIDDEN_SUBSTRINGS[k])
  }

  predicate IsForbiddenKey(u: Unicode, key: string) {
    Normalise(u, key) in FORBIDDEN_KEYS || MatchesSubstring(u, key)
  }

  // --------------------------------------------- the substring rule is closed --

  lemma ContainsWider(a: string, s: string, b: string, token: string)
    requires Contains(s, token)
    ensures Contains(a + s + b, token)
  {
    var i :| 0 <= i <= |s| && OccursAt(s, token, i);
    assert (a + s + b)[|a| + i..|a| + i + |token|] == s[i..i + |token|];
    assert OccursAt(a + s + b, token, |a| + i);
  }

  lemma {:induction false} LowerAppend(u: Unicode, a: string, b: string)
    ensures Lower(u, a + b) == Lower(u, a) + Lower(u, b)
  {
    if a == [] {
      assert a + b == b;
    } else {
      assert (a + b)[1..] == a[1..] + b;
      LowerAppend(u, a[1..], b);
    }
  }

  /** A word of letters, digits and underscores cannot straddle a stripped space. */
  predicate Word(u: Unicode, token: string) {
    token != [] && forall i :: 0 <= i < |token| ==> !u.space(token[i])
  }

  lemma TokensAreWords(u: Unicode, k: nat)
    requires Sane(u) && k < |FORBIDDEN_SUBSTRINGS|
    ensures Word(u, FORBIDDEN_SUBSTRINGS[k])
  {
    assert forall i :: 0 <= i < |FORBIDDEN_SUBSTRINGS[k]| ==>
        'a' <= FORBIDDEN_SUBSTRINGS[k][i] <= 'z' || FORBIDDEN_SUBSTRINGS[k][i] == '_'
              || IsAsciiDigit(FORBIDDEN_SUBSTRINGS[k][i]);
  }

  lemma LowerOne(u: Unicode, c: char)
    ensures Lower(u, [c]) == u.lower(c)
  {
    assert [c][1..] == [];
    assert Lower(u, [c]) == u.lower(c) + Lower(u, []);
  }

  lemma {:induction false} StripKeepsWords(u: Unicode, s: string, token: string)
    requires Sane(u) && Word(u, token)
    ensures Contains(Lower(u, s), token) <==> Contains(Lower(u, Strip(u, s)), token)
    decreases |s|
  {
    if s == [] {
    } else if u.space(s[0]) {
      var rest := s[1..];
      StripKeepsWords(u, rest, token);
      assert Lower(u, s) == [s[0]] + Lower(u, rest);
      DropSpace(u, s[0], Lower(u, rest), token);
    } else if u.space(s[|s| - 1]) {
      var init, c := s[..|s| - 1], s[|s| - 1];
      StripKeepsWords(u, init, token);
      assert s == init + [c];
      LowerAppend(u, init, [c]);
      LowerOne(u, c);
      DropSpaceAtEnd(u, Lower(u, init), c, token);
    }
  }

  lemma DropSpace(u: Unicode, c: char, s: string, token: string)
    requires u.space(c) && Word(u, token)
    ensures Contains([c] + s, token) <==> Contains(s, token)
  {
    if Contains([c] + s, token) {
      var i :| 0 <= i <= |[c] + s| && OccursAt([c] + s, token, i);
      assert ([c] + s)[i] == token[0];
      assert ([c] + s)[i..i + |token|] == s[i - 1..i - 1 + |token|];
      assert OccursAt(s, token, i - 1);
    }
    if Contains(s, token) {
      ContainsWider([c], s, [], token);
      assert [c] + s + [] == [c] + s;
    }
  }

  lemma DropSpaceAtEnd(u: Unicode, s: string, c: char, token: string)
    requires u.space(c) && Word(u, token)
    ensures Contains(s + [c], token) <==> Contains(s, token)
  {
    if Contains(s + [c], token) {
      var i :| 0 <= i <= |s + [c]| && OccursAt(s + [c], token, i);
      var last := |token| - 1;
      assert (s + [c])[i..i + |token|][last] == (s + [c])[i + last];
      assert (s + [c])[i..i + |token|] == s[i..i + |token|];
      assert OccursAt(s, token, i);
    }
    if Contains(s, token) {
      ContainsWider([], s, [c], token);
      assert [] + s + [c] == s + [c];
    }
  }

  /** A key caught by the substring rule is still caught whatever is written around it. */
  lemma SubstringRuleIsClosed(u: Unicode, before: string, key: string, after: string)
    requires Sane(u) && MatchesSubstring(u, key)
    ensures MatchesSubstring(u, before + key + after)
    ensures IsForbiddenKey(u, before + key + after)
  {
    var k :| 0 <= k < |FORBIDDEN_SUBSTRINGS| && Contains(Normalise(u, key), FORBIDDEN_SUBSTRINGS[k]);
    var token, whole := FORBIDDEN_SUBSTRINGS[k], before + key + after;
    TokensAreWords(u, k);
    StripKeepsWords(u, key, token);
    LowerAppend(u, before + key, after);
    LowerAppend(u, before, key);
    ContainsWider(Lower(u, before), Lower(u, key), Lower(u, after), token);
    StripKeepsWords(u, whole, token);
  }

  /** Spaces around a key do not hide it, nor does the case it is written in. */
  lemma SpacesDoNotHide(u: Unicode, before: string, key: string, after: string)
    requires forall i :: 0 <= i < |before| ==> u.space(before[i])
    requires forall i :: 0 <= i < |after| ==> u.space(after[i])
    ensures IsForbiddenKey(u, before + key + after) <==> IsForbiddenKey(u, key)
  {
    StripSkips(u, before, key, after);
    hide Strip, Lower, Contains;
  }

  lemma CaseDoesNotHide(u: Unicode, key: string, other: string)
    requires Lower(u, Strip(u, key)) == Lower(u, Strip(u, other))
    ensures IsForbiddenKey(u, key) <==> IsForbiddenKey(u, other)
    ensures Lower(u, Strip(u, key)) == "client_id" ==> IsForbiddenKey(u, key)
  {
  }

  // ----------------------------------------------------------- assert_anonymous --

  /** A rendered payload. */
  datatype Json = Scalar(text: string) | Object(members: seq<(string, Json)>) | List(items: seq<Json>)

  datatype Hop = Member(index: nat) | Item(index: nat)

  /** Where `assert_anonymous` raises: the first forbidden key in reading order. */
  function FirstLeak(u: Unicode, j: Json): Option<seq<Hop>>
    decreases j
  {
    match j
    case Scalar(_) => None
    case Object(_) => FirstLeakInMembers(u, j, 0)
    case List(_) => FirstLeakInItems(u, j, 0)
  }

  function FirstLeakInMembers(u: Unicode, j: Json, from: nat): Option<seq<Hop>>
    requires j.Object? && from <= |j.members|
    decreases j, |j.members| - from
  {
    if from == |j.members| then None
    else if IsForbiddenKey(u, j.members[from].0) then Some([Member(from)])
    else
      match FirstLeak(u, j.members[from].1)
      case Some(path) => Some([Member(from)] + path)
      case None => FirstLeakInMembers(u, j, from + 1)
  }

  function FirstLeakInItems(u: Unicode, j: Json, from: nat): Option<seq<Hop>>
    requires j.List? && from <= |j.items|
    decreases j, |j.items| - from
  {
    if from == |j.items| then None
    else
      match FirstLeak(u, j.items[from])
      case Some(path) => Some([Item(from)] + path)
      case None => FirstLeakInItems(u, j, from + 1)
  }

  /** The key found by walking `path` from the root, when it ends at one. */
  function KeyAt(j: Json, path: seq<Hop>): Option<string> {
    if path == [] then None
    else
      match (j, path[0])
      case (Object(members), Member(i)) =>
        if i >= |members| then None
        else if |path| == 1 then Some(members[i].0)
        else KeyAt(members[i].1, path[1..])
      case (List(items), Item(i)) => if i >= |items| then None else KeyAt(items[i], path[1..])
      case _ => None
  }

  ghost predicate Anonymous(u: Unicode, j: Json) {
    forall path :: KeyAt(j, path).Some? ==> !IsForbiddenKey(u, KeyAt(j, path).value)
  }

  lemma {:induction false} LeakIsReal(u: Unicode, j: Json)
    requires FirstLeak(u, j).Some?
    ensures KeyAt(j, FirstLeak(u, j).value).Some?
    ensures IsForbiddenKey(u, KeyAt(j, FirstLeak(u, j).value).value)
    decreases j
  {
    match j
    case Object(_) => LeakInMembersIsReal(u, j, 0);
    case List(_) => LeakInItemsIsReal(u, j, 0);
  }

  lemma {:induction false} LeakInMembersIsReal(u: Unicode, j: Json, from: nat)
    requires j.Object? && from <= |j.members| && FirstLeakInMembers(u, j, from).Some?
    ensures var path := FirstLeakInMembers(u, j, from).value;
      KeyAt(j, path).Some? && IsForbiddenKey(u, KeyAt(j, path).value)
    decreases j, |j.members| - from
  {
    if !IsForbiddenKey(u, j.members[from].0) {
      if FirstLeak(u, j.members[from].1).Some? {
        LeakIsReal(u, j.members[from].1);
        var path := FirstLeak(u, j.members[from].1).value;
        assert ([Member(from)] + path)[1..] == path;
      } else {
        LeakInMembersIsReal(u, j, from + 1);
      }
    }
  }

  lemma {:induction false} LeakInItemsIsReal(u: Unicode, j: Json, from: nat)
    requires j.List? && from <= |j.items| && FirstLeakInItems(u, j, from).Some?
    ensures var path := FirstLeakInItems(u, j, from).value;
      KeyAt(j, path).Some? && IsForbiddenKey(u, KeyAt(j, path).value)
    decreases j, |j.items| - from
  {
    if FirstLeak(u, j.items[from]).Some? {
      LeakIsReal(u, j.items[from]);
      var path := FirstLeak(u, j.items[from]).value;
      assert ([Item(from)] + path)[1..] == path;
    } else {
      LeakInItemsIsReal(u, j, from + 1);
    }
  }

  lemma {:induction false} MembersSkipped(u: Unicode, j: Json, from: nat, i: nat)
    requires j.Object? && from <= i < |j.members| && FirstLeakInMembers(u, j, from).None?
    ensures !IsForbiddenKey(u, j.members[i].0) && FirstLeak(u, j.members[i].1).None?
    decreases i - from
  {
    if from < i {
      MembersSkipped(u, j, from + 1, i);
    }
  }

  lemma {:induction false} ItemsSkipped(u: Unicode, j: Json, from: nat, i: nat)
    requires j.List? && from <= i < |j.items| && FirstLeakInItems(u, j, from).None?
    ensures FirstLeak(u, j.items[i]).None?
    decreases i - from
  {
    if from < i {
      ItemsSkipped(u, j, from + 1, i);
    }
  }

  lemma {:induction false} NoLeakAnywhere(u: Unicode, j: Json, path: seq<Hop>)
    requires FirstLeak(u, j).None? && KeyAt(j, path).Some?
    ensures !IsForbiddenKey(u, KeyAt(j, path).value)
    decreases |path|
  {
    match j
    case Object(members) =>
      MembersSkipped(u, j, 0, path[0].index);
      if |path| > 1 {
        NoLeakAnywhere(u, members[path[0].index].1, path[1..]);
      }
    case List(items) =>
      ItemsSkipped(u, j, 0, path[0].index);
      NoLeakAnywhere(u, items[path[0].index], path[1..]);
  }

  /** The walk accepts a payload exactly when no key at any depth is forbidden. */
  lemma AcceptedIffAnonymous(u: Unicode, j: Json)
    ensures FirstLeak(u, j).None? <==> Anonymous(u, j)
  {
    if FirstLeak(u, j).None? {
      forall path | KeyAt(j, path).Some?
        ensures !IsForbiddenKey(u, KeyAt(j, path).value)
      {
        NoLeakAnywhere(u, j, path);
      }
    } else {
      LeakIsReal(u, j);
    }
  }

  // ---------------------------------------------------------- check_field_names --

  /** `source.split(".")`. */
  function Split(s: string): (segments: seq<string>)
    ensures segments != []
  {
    if s == [] then [[]]
    else if s[0] == '.' then [[]] + Split(s[1..])
    else [[s[0]] + Split(s[1..])[0]] + Split(s[1..])[1..]
  }

  function Join(segments: seq<string>): string
    requires segments != []
  {
    if |segments| == 1 then segments[0] else segments[0] + ['.'] + Join(segments[1..])
  }

  /** Splitting a path loses none of it, and no segment still hides a dot. */
  lemma {:induction false} SplitIsExact(s: string)
    ensures Join(Split(s)) == s
    ensures forall i :: 0 <= i < |Split(s)| ==> '.' !in Split(s)[i]
  {
    if s != [] {
      SplitIsExact(s[1..]);
      var rest := Split(s[1..]);
      if s[0] == '.' {
        assert Split(s)[1..] == rest;
      } else {
        assert Split(s)[1..] == rest[1..];
        if |rest| > 1 {
          assert [s[0]] + (rest[0] + ['.'] + Join(rest[1..])) == ([s[0]] + rest[0]) + ['.'] + Join(rest[1..]);
        }
      }
    }
  }

  /** How a declared field finds its value.  A plain field renders a scalar; what a
      method field builds no static check can see; a nested one renders another
      serializer, once or for each of many instances. */
  datatype Field = Plain(source: Option<string>) | Method | Nested(source: Option<string>, inner: Serializer)

  datatype Serializer = Serializer(fields: seq<(string, Field)>)

  predicate IsForbiddenSegment(u: Unicode, segment: string) {
    Normalise(u, segment) in FORBIDDEN_SOURCES || IsForbiddenKey(u, segment)
  }

  function SourceOf(f: Field): Option<string> {
    match f
    case Plain(source) => source
    case Method => None
    case Nested(source, _) => source
  }

  /** The segments `forbidden_source_segments` looks at. */
  function Segments(f: Field): seq<string> {
    match SourceOf(f)
    case None => []
    case Some(source) => if source == "" || source == "*" then [] else Split(source)
  }

  predicate ReadsForbidden(u: Unicode, f: Field) {
    exists k :: 0 <= k < |Segments(f)| && IsForbiddenSegment(u, Segments(f)[k])
  }

  predicate Offends(u: Unicode, name: string, f: Field) {
    IsForbiddenKey(u, name) || ReadsForbidden(u, f)
  }

  /** Splitting undoes joining: a path is read as the segments it was written from. */
  lemma {:induction false} SplitOfJoin(segments: seq<string>)
    requires segments != [] && forall i :: 0 <= i < |segments| ==> '.' !in segments[i]
    ensures Split(Join(segments)) == segments
    decreases |Join(segments)|
  {
    var first, rest := segments[0], segments[1..];
    if first != [] {
      var shorter := [first[1..]] + rest;
      assert shorter[1..] == rest && [first[0]] + first[1..] == first;
      assert first[0] in first;
      assert Join(segments) == [first[0]] + Join(shorter);
      SplitOfJoin(shorter);
      assert segments == [[first[0]] + shorter[0]] + shorter[1..];
    } else if rest != [] {
      assert Join(segments) == ['.'] + Join(rest);
      SplitOfJoin(rest);
      assert segments == [[]] + rest;
    }
  }

  /** Wherever a forbidden name stands in a field's path, first, last or between dots, it
      is caught, and a field offends by nothing else than such a segment or its name. */
  lemma OffendsIff(u: Unicode, name: string, f: Field, segments: seq<string>)
    requires segments != [] && forall i :: 0 <= i < |segments| ==> '.' !in segments[i]
    requires SourceOf(f) == Some(Join(segments)) && Join(segments) != "" && Join(segments) != "*"
    ensures Offends(u, name, f) <==>
            IsForbiddenKey(u, name) || exists i :: 0 <= i < |segments| && IsForbiddenSegment(u, segments[i])
  {
    hide IsForbiddenKey, IsForbiddenSegment, Split, Join, Segments, SourceOf;
    SplitOfJoin(segments);
    SegmentsAreSplit(f);
    assert Segments(f) == segments;
  }

  lemma SegmentsAreSplit(f: Field)
    requires SourceOf(f).Some? && SourceOf(f).value != "" && SourceOf(f).value != "*"
    ensures Segments(f) == Split(SourceOf(f).value)
  {
    hide Split;
  }

  /** A segment is judged as a key is, and one more name besides. */
  lemma ForbiddenSegmentIff(u: Unicode, segment: string)
    ensures IsForbiddenSegment(u, segment) <==>
            IsForbiddenKey(u, segment) || Lower(u, Strip(u, segment)) == "masked_label"
  {
  }

  /** Without a path, or with the whole object as one, a field offends by its name alone. */
  lemma PathlessOffendsByName(u: Unicode, name: string, f: Field)
    requires SourceOf(f) == None || SourceOf(f) == Some("") || SourceOf(f) == Some("*")
    ensures Offends(u, name, f) <==> IsForbiddenKey(u, name)
  {
  }

  datatype Offence = NamedField(name: string) | ReadsSegment(name: string, segment: string)

  /** The offences of one field: its name, then each segment its source reads. */
  method FieldOffences(u: Unicode, name: string, f: Field) returns (offences: seq<Offence>)
    ensures offences == [] <==> !Offends(u, name, f)
    ensures IsForbiddenKey(u, name) <==> NamedField(name) in offences
  {
    offences := if IsForbiddenKey(u, name) then [NamedField(name)] else [];
    var segments := Segments(f);
    for j := 0 to |segments|
      invariant IsForbiddenKey(u, name) <==> NamedField(name) in offences
      invariant offences == []
            <==> !IsForbiddenKey(u, name) && forall k :: 0 <= k < j ==> !IsForbiddenSegment(u, segments[k])
    {
      if IsForbiddenSegment(u, segments[j]) {
        offences := offences + [ReadsSegment(name, segments[j])];
      }
    }
  }

  /** `check_field_names`, collecting every offence before raising on any. */
  method CheckFieldNames(u: Unicode, fields: seq<(string, Field)>) returns (offences: seq<Offence>)
    ensures offences == [] <==> forall i :: 0 <= i < |fields| ==> !Offends(u, fields[i].0, fields[i].1)
    ensures forall i :: 0 <= i < |fields| && IsForbiddenKey(u, fields[i].0) ==> NamedField(fields[i].0) in offences
  {
    offences := [];
    for i := 0 to |fields|
      invariant offences == [] <==> forall k :: 0 <= k < i ==> !Offends(u, fields[k].0, fields[k].1)
      invariant forall k :: 0 <= k < i && IsForbiddenKey(u, fields[k].0) ==> NamedField(fields[k].0) in offences
    {
      var found := FieldOffences(u, fields[i].0, fields[i].1);
      offences := offences + found;
    }
  }

  /** Every serializer in the nest was accepted when its class was defined. */
  predicate Defined(u: Unicode, s: Serializer) {
    forall i :: 0 <= i < |s.fields| ==>
      && !Offends(u, s.fields[i].0, s.fields[i].1)
      && (s.fields[i].1.Nested? ==> Defined(u, s.fields[i].1.inner))
  }

  // ---------------------------------------------------------- to_representation --

  /** What the fields of one instance hold, in the order they are declared. */
  datatype Value = Text(text: string) | Built(json: Json) | One(instance: Instance) | Many(instances: seq<Instance>)

  datatype Instance = Instance(values: seq<Value>)

  predicate Fits(s: Serializer, x: Instance)
    decreases x
  {
    |x.values| == |s.fields| && forall i :: 0 <= i < |x.values| ==> FitsField(s.fields[i].1, x.values[i])
  }

  predicate FitsField(f: Field, v: Value)
    decreases v
  {
    match f
    case Plain(_) => v.Text?
    case Method => v.Built?
    case Nested(_, inner) =>
      match v
      case One(x) => Fits(inner, x)
      case Many(xs) => forall i :: 0 <= i < |xs| ==> Fits(inner, xs[i])
      case Text(_) => true  // a related object that is absent renders as null
      case Built(_) => false
  }

  /** `to_representation`: build the payload, walk it, raise (None) rather than return a leak. */
  function Represent(u: Unicode, s: Serializer, x: Instance): Option<Json>
    requires Fits(s, x)
    decreases x, |x.values| + 1
  {
    match RepresentFields(u, s, x, 0)
    case None => None
    case Some(members) => if FirstLeak(u, Object(members)).Some? then None else Some(Object(members))
  }

  function RepresentFields(u: Unicode, s: Serializer, x: Instance, from: nat): Option<seq<(string, Json)>>
    requires Fits(s, x) && from <= |x.values|
    decreases x, |x.values| - from
  {
    if from == |x.values| then Some([])
    else
      match (RepresentValue(u, s.fields[from].1, x.values[from]), RepresentFields(u, s, x, from + 1))
      case (Some(j), Some(rest)) => Some([(s.fields[from].0, j)] + rest)
      case _ => None
  }

  function RepresentValue(u: Unicode, f: Field, v: Value): Option<Json>
    requires FitsField(f, v)
    decreases v
  {
    match v
    case Text(text) => Some(Scalar(text))
    case Built(json) => Some(json)
    case One(x) => Represent(u, f.inner, x)
    case Many(xs) =>
      match RepresentMany(u, f.inner, xs)
      case None => None
      case Some(items) => Some(List(items))
  }

  function RepresentMany(u: Unicode, s: Serializer, xs: seq<Instance>): Option<seq<Json>>
    requires forall i :: 0 <= i < |xs| ==> Fits(s, xs[i])
    decreases xs
  {
    if xs == [] then Some([])
    else
      match (RepresentMany(u, s, xs[..|xs| - 1]), Represent(u, s, xs[|xs| - 1]))
      case (Some(items), Some(j)) => Some(items + [j])
      case _ => None
  }

  /** Every value a method field built, at any depth of the nest, is anonymous. */
  ghost predicate MethodsAreAnonymous(u: Unicode, x: Instance)
    decreases x
  {
    forall i :: 0 <= i < |x.values| ==> ValueIsAnonymous(u, x.values[i])
  }

  ghost predicate ValueIsAnonymous(u: Unicode, v: Value)
    decreases v
  {
    match v
    case Text(_) => true
    case Built(json) => Anonymous(u, json)
    case One(x) => MethodsAreAnonymous(u, x)
    case Many(xs) => forall i :: 0 <= i < |xs| ==> MethodsAreAnonymous(u, xs[i])
  }

  lemma {:induction false} ObjectIsClean(u: Unicode, j: Json, from: nat)
    requires j.Object? && from <= |j.members|
    requires forall i :: from <= i < |j.members| ==>
          !IsForbiddenKey(u, j.members[i].0) && FirstLeak(u, j.members[i].1).None?
    ensures FirstLeakInMembers(u, j, from).None?
    decreases |j.members| - from
  {
    if from < |j.members| {
      ObjectIsClean(u, j, from + 1);
    }
  }

  lemma {:induction false} ListIsClean(u: Unicode, j: Json, from: nat)
    requires j.List? && from <= |j.items|
    requires forall i :: from <= i < |j.items| ==> FirstLeak(u, j.items[i]).None?
    ensures FirstLeakInItems(u, j, from).None?
    decreases |j.items| - from
  {
    if from < |j.items| {
      ListIsClean(u, j, from + 1);
    }
  }

  /** A nest of serializers that could be defined, given method fields that build
      nothing identifying, never trips the run-time guard: the payload is returned
      and no key of it is forbidden. */
  lemma {:induction false} DefinedImpliesRepresented(u: Unicode, s: Serializer, x: Instance)
    requires Defined(u, s) && Fits(s, x) && MethodsAreAnonymous(u, x)
    ensures Represent(u, s, x).Some?
    ensures FirstLeak(u, Represent(u, s, x).value).None?
    decreases x, |x.values| + 1
  {
    FieldsAreClean(u, s, x, 0);
    ObjectIsClean(u, Object(RepresentFields(u, s, x, 0).value), 0);
  }

  lemma {:induction false} FieldsAreClean(u: Unicode, s: Serializer, x: Instance, from: nat)
    requires Defined(u, s) && Fits(s, x) && MethodsAreAnonymous(u, x)
    requires from <= |x.values|
    ensures RepresentFields(u, s, x, from).Some?
    ensures var members := RepresentFields(u, s, x, from).value;
      forall i :: 0 <= i < |members| ==> !IsForbiddenKey(u, members[i].0) && FirstLeak(u, members[i].1).None?
    decreases x, |x.values| - from
  {
    if from < |x.values| {
      assert !Offends(u, s.fields[from].0, s.fields[from].1);
      ValueIsClean(u, s.fields[from].1, x.values[from]);
      FieldsAreClean(u, s, x, from + 1);
    }
  }

  lemma {:induction false} ValueIsClean(u: Unicode, f: Field, v: Value)
    requires FitsField(f, v) && ValueIsAnonymous(u, v)
    requires f.Nested? ==> Defined(u, f.inner)
    ensures RepresentValue(u, f, v).Some?
    ensures FirstLeak(u, RepresentValue(u, f, v).value).None?
    decreases v
  {
    match v
    case Text(_) =>
    case Built(json) => AcceptedIffAnonymous(u, json);
    case One(x) => DefinedImpliesRepresented(u, f.inner, x);
    case Many(xs) =>
      ManyAreClean(u, f.inner, xs);
      ListIsClean(u, List(RepresentMany(u, f.inner, xs).value), 0);
  }

  lemma {:induction false} ManyAreClean(u: Unicode, s: Serializer, xs: seq<Instance>)
    requires Defined(u, s)
    requires forall i :: 0 <= i < |xs| ==> Fits(s, xs[i]) && MethodsAreAnonymous(u, xs[i])
    ensures RepresentMany(u, s, xs).Some?
    ensures forall i :: 0 <= i < |RepresentMany(u, s, xs).value| ==>
          FirstLeak(u, RepresentMany(u, s, xs).value[i]).None?
    decreases xs
  {
    if xs != [] {
      ManyAreClean(u, s, xs[..|xs| - 1]);
      DefinedImpliesRepresented(u, s, xs[|xs| - 1]);
    }
  }

  /** Whatever was defined and whatever the methods built, a payload that is
      returned carries no forbidden key at any depth: the guard fails closed. */
  lemma ReturnedIsAnonymous(u: Unicode, s: Serializer, x: Instance)
    requires Fits(s, x) && Represent(u, s, x).Some?
    ensures Anonymous(u, Represent(u, s, x).value)
  {
    AcceptedIffAnonymous(u, Represent(u, s, x).value);
  }
}
