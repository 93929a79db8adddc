/**
  The prompt-template hook: a list of saved templates and the small form used
  to name a new one. The save completes after a UI delay; the model takes the
  completed save as one step, with the clock reading as a parameter.
 */
module Templates {
  import opened Types
  import opened Text
  import Lists

  datatype TemplateState = TemplateState(
    templates: seq<Template>,
    showSaveTemplate: bool,
    newTemplateName: string,
    isSavingTemplate: bool)

  /** `saveTemplate(prompt)` once its delay has elapsed, at clock reading `now`. */
  function SaveTemplate(st: TemplateState, prompt: string, now: int): (r: TemplateState)
    ensures Trim(st.newTemplateName) == [] || Trim(prompt) == [] ==> r == st
    ensures Trim(st.newTemplateName) != [] && Trim(prompt) != [] ==>
      && |r.templates| == |st.templates| + 1
      && r.templates[..|st.templates|] == st.templates
      && r.templates[|st.templates|] == Template(IntToString(now), Trim(st.newTemplateName), Trim(prompt))
      && r.newTemplateName == [] && !r.showSaveTemplate && !r.isSavingTemplate
  {
    if Trim(st.newTemplateName) == [] || Trim(prompt) == [] then st
    else
      var t := Template(IntToString(now), Trim(st.newTemplateName), Trim(prompt));
      TemplateState(st.templates + [t], false, [], false)
  }

  /** `loadTemplate(template, setPrompt)`: the prompt the form receives. */
  function LoadTemplate(t: Template): (prompt: string)
    ensures prompt == t.prompt
  {
    t.prompt
  }

  /** `deleteTemplate(id)`. */
  function DeleteTemplate(st: TemplateState, id: string): (r: TemplateState)
    ensures forall i :: 0 <= i < |r.templates| ==> r.templates[i].id != id
    ensures r.showSaveTemplate == st.showSaveTemplate && r.newTemplateName == st.newTemplateName
  {
    st.(templates := Lists.Filter(st.templates, (t: Template) => t.id != id))
  }

  /** Deleting keeps the other templates in their order, and exactly those. */
  lemma DeleteKeepsOthers(st: TemplateState, id: string, t: Template)
    ensures var r := DeleteTemplate(st, id).templates;
      && Lists.IsSubsequence(r, st.templates)
      && (t in r <==> t in st.templates && t.id != id)
  {
    Lists.FilterIsSubsequence(st.templates, (x: Template) => x.id != id);
    Lists.FilterMembership(st.templates, (x: Template) => x.id != id, t);
  }

  /** Deleting the template just saved, when its id was not taken, gives the
      list back as it was — also when the save stored nothing. */
  lemma SaveThenDelete(st: TemplateState, prompt: string, now: int)
    requires forall i :: 0 <= i < |st.templates| ==> st.templates[i].id != IntToString(now)
    ensures DeleteTemplate(SaveTemplate(st, prompt, now), IntToString(now)).templates == st.templates
  {
    var id := IntToString(now);
    var keep := (t: Template) => t.id != id;
    var saved := SaveTemplate(st, prompt, now);
    if Trim(st.newTemplateName) == [] || Trim(prompt) == [] {
      Lists.FilterKeepsAll(st.templates, keep);
    } else {
      assert saved.templates == st.templates + [saved.templates[|st.templates|]];
      Lists.FilterDropsLast(st.templates, saved.templates[|st.templates|], keep);
    }
  }

  /** Loading a saved template and saving what was loaded, under any
      non-blank name, stores the very same prompt: a stored prompt is already
      trimmed, so a second save does not change it. Saved under the
      template's own name, the copy differs from the original only in its id. */
  lemma LoadedTemplateResaves(st: TemplateState, prompt: string, now: int, st2: TemplateState, now2: int)
    requires Trim(st.newTemplateName) != [] && Trim(prompt) != []
    requires Trim(st2.newTemplateName) != []
    ensures var saved := SaveTemplate(st, prompt, now).templates;
      var again := SaveTemplate(st2, LoadTemplate(saved[|saved| - 1]), now2).templates;
      && |again| == |st2.templates| + 1
      && again[|again| - 1].prompt == saved[|saved| - 1].prompt
      && (st2.newTemplateName == saved[|saved| - 1].name ==>
            again[|again| - 1] == saved[|saved| - 1].(id := IntToString(now2)))
  {
    TrimIdempotent(prompt);
    TrimIdempotent(st.newTemplateName);
  }
}
