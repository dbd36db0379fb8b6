/** `sendConfirmationEmail`: whether a confirmation is sent at all, and
    the mail it builds from the `reservation_confirmation` template. The
    transporter, the template query and the locale formatting of the
    reservation time are inputs; delivery itself is not modelled. */
module Email {
  import opened Js
  import opened Http

  datatype Template = Template(subject: string, body: string)

  /** What the booking handler passes on: `{ name, email, party_size, reservation_time }`. */
  datatype ReservationDetails = ReservationDetails(name: Json, email: Json, partySize: Json, reservationTime: Json)

  /** The mail options handed to the transporter. */
  datatype Mail = Mail(from: string, to: Json, subject: string, text: string)

  /** The chain of `.replace` calls on the template body, in the source's
      order: name, party size, date, time. A body without any of the four
      placeholders is sent as it is. */
  function RenderBody(body: string, name: string, partySize: string, date: string, time: string): (text: string)
    ensures (forall j :: !OccursAt(body, "{name}", j) && !OccursAt(body, "{party_size}", j) &&
                         !OccursAt(body, "{date}", j) && !OccursAt(body, "{time}", j)) ==> text == body
  {
    ReplaceFirst(ReplaceFirst(ReplaceFirst(ReplaceFirst(body, "{name}", name), "{party_size}", partySize), "{date}", date), "{time}", time)
  }

  /** The three later placeholders are missing from `s` when `s` lacks
      the letters `p`, `d` and `t`. */
  lemma LaterPlaceholdersAbsent(s: string)
    requires 'p' !in s && 'd' !in s && 't' !in s
    ensures forall j :: !OccursAt(s, "{party_size}", j) && !OccursAt(s, "{date}", j) && !OccursAt(s, "{time}", j)
  {
    AbsentByCharacter(s, "{party_size}", 1);
    AbsentByCharacter(s, "{date}", 1);
    AbsentByCharacter(s, "{time}", 1);
  }

  /** Only the first `{name}` is filled in; a second one stays in the text. */
  lemma RepeatedPlaceholderSurvives(partySize: string, date: string, time: string)
    ensures RenderBody("{name} {name}", "Ann", partySize, date, time) == "Ann {name}"
  {
    assert OccursAt("{name} {name}", "{name}", 0);
    assert ReplaceFirst("{name} {name}", "{name}", "Ann") == "Ann {name}";
    LaterPlaceholdersAbsent("Ann {name}");
  }

  /** The replacements run in order, so a name that itself looks like a
      later placeholder is filled in by that later replacement. */
  lemma EarlierTextMatchedLater(partySize: string, date: string)
    ensures RenderBody("{name}", "{time}", partySize, date, "7:00 PM") == "7:00 PM"
  {
    assert OccursAt("{name}", "{name}", 0);
    assert ReplaceFirst("{name}", "{name}", "{time}") == "{time}";
    AbsentByCharacter("{time}", "{party_size}", 1);
    AbsentByCharacter("{time}", "{date}", 1);
    assert OccursAt("{time}", "{time}", 0);
  }

  /** A placeholder: `{`, then characters that are not braces, then `}`. */
  predicate Placeholder(t: string) {
    |t| >= 2 && t[0] == '{' && t[|t| - 1] == '}' &&
    forall k :: 0 < k < |t| - 1 ==> t[k] != '{' && t[k] != '}'
  }

  /** The four placeholders of the template, in the order they are filled. */
  const Placeholders: seq<string> := ["{name}", "{party_size}", "{date}", "{time}"]

  lemma PlaceholdersWellFormed()
    ensures forall k :: 0 <= k < |Placeholders| ==> Placeholder(Placeholders[k])
    ensures forall k, l :: 0 <= k < l < |Placeholders| ==> Placeholders[k] != Placeholders[l]
  {
    assert "{name}"[1] == 'n' && "{party_size}"[1] == 'p' && "{date}"[1] == 'd' && "{time}"[1] == 't';
  }

  /** The characters of an occurrence of `t` at `i`. */
  lemma OccurrenceChars(s: string, t: string, i: int)
    requires OccursAt(s, t, i)
    ensures forall j :: i <= j < i + |t| ==> s[j] == t[j - i]
  {
    forall j | i <= j < i + |t| ensures s[j] == t[j - i] {
      assert s[i..i + |t|][j - i] == s[j];
    }
  }

  /** Two occurrences of placeholders in one text are either the same
      occurrence or do not overlap. */
  lemma PlaceholdersApart(s: string, t: string, i: int, u: string, p: int)
    requires Placeholder(t) && Placeholder(u) && OccursAt(s, t, i) && OccursAt(s, u, p)
    requires i != p || t != u
    ensures p + |u| <= i || i + |t| <= p
  {
    OccurrenceChars(s, t, i);
    OccurrenceChars(s, u, p);
    var openT, closeT := s[i], s[i + |t| - 1];
    var openU, closeU := s[p], s[p + |u| - 1];
  }

  /** Filling in another placeholder `t` keeps an occurrence of `u`. */
  lemma KeepsOtherPlaceholder(s: string, t: string, v: string, u: string, p: int) returns (p': int)
    requires Placeholder(t) && Placeholder(u) && t != u && OccursAt(s, u, p)
    ensures OccursAt(ReplaceFirst(s, t, v), u, p')
    ensures p' == if IndexOf(s, t) == -1 || p + |u| <= IndexOf(s, t) then p else p - |t| + |v|
  {
    var i := IndexOf(s, t);
    if i != -1 {
      PlaceholdersApart(s, t, i, u, p);
    }
    ReplaceFirstKeepsOther(s, t, v, u, p);
    p' := if i == -1 || p + |u| <= i then p else p - |t| + |v|;
  }

  /** Filling in another placeholder `t` keeps two occurrences of `u`, in
      their order. */
  lemma KeepsOtherPlaceholderTwice(s: string, t: string, v: string, u: string, p: int, q: int) returns (p': int, q': int)
    requires Placeholder(t) && Placeholder(u) && t != u && OccursAt(s, u, p) && OccursAt(s, u, q) && p < q
    ensures OccursAt(ReplaceFirst(s, t, v), u, p') && OccursAt(ReplaceFirst(s, t, v), u, q') && p' < q'
  {
    var i := IndexOf(s, t);
    if i != -1 {
      PlaceholdersApart(s, t, i, u, p);
      PlaceholdersApart(s, t, i, u, q);
    }
    p' := KeepsOtherPlaceholder(s, t, v, u, p);
    q' := KeepsOtherPlaceholder(s, t, v, u, q);
  }

  /** Filling in `u` keeps a second occurrence of `u`. */
  lemma KeepsSecondOccurrence(s: string, u: string, v: string, p: int, q: int) returns (q': int)
    requires Placeholder(u) && OccursAt(s, u, p) && OccursAt(s, u, q) && p < q
    ensures OccursAt(ReplaceFirst(s, u, v), u, q')
  {
    PlaceholdersApart(s, u, p, u, q);
    ReplaceFirstKeepsSecond(s, u, v, p, q);
    q' := q - |u| + |v|;
  }

  /** A chain of `.replace(tokens[k], values[k])` calls, applied left to right. */
  function ReplaceChain(s: string, tokens: seq<string>, values: seq<string>): string
    requires |tokens| == |values|
    decreases |tokens|
  {
    if tokens == [] then s else ReplaceChain(ReplaceFirst(s, tokens[0], values[0]), tokens[1..], values[1..])
  }

  /** The rendering is the chain of the four placeholders with their values. */
  lemma RenderBodyIsChain(body: string, name: string, partySize: string, date: string, time: string)
    ensures RenderBody(body, name, partySize, date, time) == ReplaceChain(body, Placeholders, [name, partySize, date, time])
  {
    var values := [name, partySize, date, time];
    var s1 := ReplaceFirst(body, "{name}", name);
    var s2 := ReplaceFirst(s1, "{party_size}", partySize);
    var s3 := ReplaceFirst(s2, "{date}", date);
    var s4 := ReplaceFirst(s3, "{time}", time);
    assert Placeholders[1..] == ["{party_size}", "{date}", "{time}"] && values[1..] == [partySize, date, time];
    assert Placeholders[1..][1..] == ["{date}", "{time}"] && values[1..][1..] == [date, time];
    assert Placeholders[1..][1..][1..] == ["{time}"] && values[1..][1..][1..] == [time];
    assert ReplaceChain(s4, [], []) == s4;
    assert ReplaceChain(s3, ["{time}"], [time]) == s4;
    assert ReplaceChain(s2, ["{date}", "{time}"], [date, time]) == s4;
    assert ReplaceChain(s1, Placeholders[1..], values[1..]) == s4;
  }

  /** A chain that never fills in `u` keeps an occurrence of it. */
  lemma {:induction false} ChainKeepsPlaceholder(s: string, tokens: seq<string>, values: seq<string>, u: string, p: int)
    requires |tokens| == |values|
    requires forall k :: 0 <= k < |tokens| ==> Placeholder(tokens[k]) && tokens[k] != u
    requires Placeholder(u) && OccursAt(s, u, p)
    ensures Includes(ReplaceChain(s, tokens, values), u)
    decreases |tokens|
  {
    if tokens == [] {
      IncludesAt(s, u, p);
    } else {
      var p' := KeepsOtherPlaceholder(s, tokens[0], values[0], u, p);
      ChainKeepsPlaceholder(ReplaceFirst(s, tokens[0], values[0]), tokens[1..], values[1..], u, p');
    }
  }

  /** A chain of distinct placeholders leaves a repeated `u` in the text. */
  lemma {:induction false} ChainKeepsRepeated(s: string, tokens: seq<string>, values: seq<string>, u: string, p: int, q: int)
    requires |tokens| == |values|
    requires forall k :: 0 <= k < |tokens| ==> Placeholder(tokens[k])
    requires forall k, l :: 0 <= k < l < |tokens| ==> tokens[k] != tokens[l]
    requires Placeholder(u) && OccursAt(s, u, p) && OccursAt(s, u, q) && p < q
    ensures Includes(ReplaceChain(s, tokens, values), u)
    decreases |tokens|
  {
    if tokens == [] {
      IncludesAt(s, u, p);
    } else {
      var next := ReplaceFirst(s, tokens[0], values[0]);
      var rest := tokens[1..];
      assert forall k :: 0 <= k < |rest| ==> rest[k] == tokens[k + 1];
      if tokens[0] == u {
        var q' := KeepsSecondOccurrence(s, u, values[0], p, q);
        ChainKeepsPlaceholder(next, rest, values[1..], u, q');
      } else {
        var p', q' := KeepsOtherPlaceholderTwice(s, tokens[0], values[0], u, p, q);
        ChainKeepsRepeated(next, rest, values[1..], u, p', q');
      }
    }
  }

  /** Only the first occurrence of each placeholder is filled in: when the
      body holds any of the four placeholders twice, the sent text still
      holds it, whatever the values. */
  lemma RepeatedPlaceholderKept(body: string, name: string, partySize: string, date: string, time: string,
                                t: string, p: int, q: int)
    requires t in Placeholders && OccursAt(body, t, p) && OccursAt(body, t, q) && p < q
    ensures Includes(RenderBody(body, name, partySize, date, time), t)
  {
    PlaceholdersWellFormed();
    RenderBodyIsChain(body, name, partySize, date, time);
    ChainKeepsRepeated(body, Placeholders, [name, partySize, date, time], t, p, q);
  }

  /** `sendConfirmationEmail`. `transporterUser` is the account of the
      configured transporter, `None` while none is set up; `template` the
      store's answer for `reservation_confirmation`; `formattedDate` and
      `formattedTime` the locale renderings of the reservation time.
      Nothing is sent without a transporter or a template; otherwise the
      mail goes to the reservation's email with the template's subject
      unchanged. */
  function SendConfirmationEmail(transporterUser: Option<string>, template: Lookup<Template>,
                                 details: ReservationDetails, formattedDate: string, formattedTime: string): (m: Option<Mail>)
    ensures m.Some? <==> transporterUser.Some? && template.Row?
    ensures m.Some? ==> m.value.to == details.email && m.value.subject == template.row.subject
    ensures m.Some? ==> m.value.from == "\"Restaurant\" <" + transporterUser.value + ">"
  {
    if transporterUser.None? then None
    else if template.LookupError? then None
    else if template.NoRow? then None
    else
      var text := RenderBody(template.row.body, ToString(details.name), ToString(details.partySize), formattedDate, formattedTime);
      Some(Mail("\"Restaurant\" <" + transporterUser.value + ">", details.email, template.row.subject, text))
  }

  /** The body of a sent mail is the rendered template body; a party size
      given as a number is written in decimal. */
  lemma SentBody(transporterUser: string, template: Template, details: ReservationDetails,
                 formattedDate: string, formattedTime: string)
    ensures SendConfirmationEmail(Some(transporterUser), Row(template), details, formattedDate, formattedTime).value.text
         == RenderBody(template.body, ToString(details.name), ToString(details.partySize), formattedDate, formattedTime)
  {
  }
}
