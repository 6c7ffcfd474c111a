/** The simplified page: a selection that only grows, a parameter view for the last
    selected task, section labels, and a request with no custom parameters and no
    section switches. */
module SimplePage {
  import opened Wrappers
  import opened Text
  import opened Dicts
  import opened Json
  import Server

  /** The selection after clicking `name`: appended unless already selected. */
  function Added(tasks: seq<string>, name: string): (r: seq<string>)
    ensures name in r
    ensures tasks <= r && |r| <= |tasks| + 1
    ensures forall t :: t in r <==> t in tasks || t == name
    ensures NoDups(tasks) ==> NoDups(r)
  {
    if name in tasks then tasks else tasks + [name]
  }

  /** Clicking the same task again changes nothing. */
  lemma AddedIdempotent(tasks: seq<string>, name: string)
    ensures Added(Added(tasks, name), name) == Added(tasks, name)
  {
  }

  /** The task `updateTaskParams` asks the server about: none for an empty selection,
      otherwise the last selected one. */
  function TaskParamsRequest(tasks: seq<string>): (r: Option<string>)
    ensures r.None? <==> tasks == []
    ensures r.Some? ==> r.value in tasks
  {
    if tasks == [] then None else Some(tasks[|tasks| - 1])
  }

  /** After a click the parameters shown are those of the clicked task only when it
      was new; clicking an earlier task again shows the last selected task's. */
  lemma ClickRequests(tasks: seq<string>, name: string)
    ensures TaskParamsRequest(Added(tasks, name)) == Some(if name in tasks then tasks[|tasks| - 1] else name)
  {
  }

  const Fallback := "Error generating INCAR"

  /** The label of a section checkbox: the first `d_` removed, upper case (underscores
      are kept, unlike on the main page). */
  function SectionLabel(section: string): (r: string)
    ensures "d_" <= section ==> |r| == |section| - 2 && r == Upper(section[2..])
    ensures !Contains(section, "d_") ==> r == Upper(section)
    ensures forall i :: 0 <= i < |r| ==> !IsLower(r[i])
  {
    Upper(ReplaceFirst(section, "d_", ""))
  }

  /** A `d_` that is not at the front is removed where it first occurs; any later
      `d_` stays. */
  lemma SectionLabelFirstOccurrence(section: string, i: int)
    requires OccursAt(section, "d_", i)
    requires forall j :: 0 <= j < i ==> !OccursAt(section, "d_", j)
    ensures SectionLabel(section) == Upper(section[..i] + section[i + 2..])
  {
    ReplaceFirstAt(section, "d_", "", i);
    assert section[..i] + "" + section[i + 2..] == section[..i] + section[i + 2..];
  }

  /** What the preview shows for a reply, as written: the reply's `incar` field, or
      the fallback when that field is missing or empty. */
  function PreviewAsWritten(result: Object): (r: string)
    ensures r == Fallback <==> !Truthy(Get(result, "incar")) || Show(Get(result, "incar")) == Fallback
  {
    var incar := Get(result, "incar");
    if Truthy(incar) then Show(incar) else Fallback
  }

  /** The server's reply has no `incar` field, so as written the preview shows the
      fallback for every reply, however successful. */
  lemma AsWrittenAlwaysFallback(r: Server.Reply)
    ensures PreviewAsWritten(Server.Payload(r)) == Fallback
  {
    assert "incar" !in Keys(Server.Payload(r));
  }

  /** The preview as intended: the reply's `incar_content` field, or the fallback. */
  function Preview(result: Object): (r: string)
    ensures Get(result, "incar_content").Some? && Get(result, "incar_content").value.Str? ==>
      r == if Get(result, "incar_content").value.s != [] then Get(result, "incar_content").value.s else Fallback
    ensures !Truthy(Get(result, "incar_content")) ==> r == Fallback
  {
    var content := Get(result, "incar_content");
    if Truthy(content) then Show(content) else Fallback
  }

  /** Read from `incar_content`, the preview shows exactly the generated text for
      every request the page sends. */
  lemma PreviewShowsReply(mapping: Server.Mapping, standard: Dict<Dict<string>>, tasks: seq<string>)
    ensures var r := Server.Generate(mapping, standard, tasks, [], []);
      Preview(Server.Payload(r)) == r.content
  {
    var r := Server.Generate(mapping, standard, tasks, [], []);
    assert |r.content| > 0;
    PreviewPayload(r);
  }

  lemma PreviewPayload(r: Server.Reply)
    requires r.content != []
    ensures Preview(Server.Payload(r)) == r.content
  {
    var obj := Server.Payload(r);
    assert obj[0] == ("incar_content", Str(r.content));
    AsMapAt(obj, 0);
  }

  /** The request the page sends leaves out every standard section and every custom
      parameter: only the selected tasks' blocks are rendered. */
  lemma RequestHasOnlyTasks(mapping: Server.Mapping, standard: Dict<Dict<string>>, tasks: seq<string>)
    ensures Server.Generate(mapping, standard, tasks, [], []) ==
      Server.Assemble(Server.ByName(Server.SelectedLayers(mapping, tasks)), [], [])
  {
    assert Server.IncludedSections([], standard) == [];
    assert Server.CustomLayer([]) == [];
  }

  /** The page's module-level state. */
  class Session {
    /** `selectedTasks`. */
    var tasks: seq<string>
    /** The preview box. */
    var preview: string

    constructor ()
      ensures tasks == [] && preview == []
    {
      tasks := [];
      preview := [];
    }

    /** `selectTask(name)`: append when absent, then ask for the last task's
        parameters. */
    method SelectTask(name: string) returns (requested: Option<string>)
      modifies this`tasks
      ensures tasks == Added(old(tasks), name)
      ensures requested == TaskParamsRequest(tasks)
    {
      if name !in tasks {
        tasks := tasks + [name];
      }
      requested := if tasks == [] then None else Some(tasks[|tasks| - 1]);
    }

    /** The body `generateIncar` sends. */
    method GenerateBody() returns (selected: seq<string>, custom: Dict<string>, switches: Dict<bool>)
      ensures selected == tasks && custom == [] && switches == []
    {
      selected, custom, switches := tasks, [], [];
    }

    /** The reply written into the preview, as written: read from `incar`, so by
        `AsWrittenAlwaysFallback` every server reply shows the fallback. */
    method ShowResult(result: Object)
      modifies this`preview
      ensures preview == PreviewAsWritten(result)
    {
      var incar := Get(result, "incar");
      preview := if Truthy(incar) then Show(incar) else Fallback;
    }
  }
}
