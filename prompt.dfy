/** The system prompt `askAIWithRAG` sends: the character's profile, then
    the document context when there is one, then fixed instructions. */
module Prompt {
  import opened Text

  /** The fields of a character the prompt reads. `governance` is missing
      for some characters. */
  datatype Profile = Profile(
    name: string,
    role: string,
    personality: string,
    mission: string,
    deliverables: string,
    governance: Option<string>,
    redFlags: string)

  /** `${value}` in a template literal: a missing property prints as
      `undefined`. */
  function Interpolate(v: Option<string>): string {
    match v
    case Some(s) => s
    case None => "undefined"
  }

  /** The profile part of the prompt, ending with a blank line. */
  function Persona(p: Profile): string {
    "You are " + p.name + ", the " + p.role + " at EGIS.\n\n"
    + "Your personality: " + p.personality + "\n\n"
    + "Your mission: " + p.mission + "\n\n"
    + "Your deliverables: " + p.deliverables + "\n\n"
    + "Governance rules: " + Interpolate(p.governance) + "\n\n"
    + "Red flags: " + p.redFlags + "\n\n"
  }

  const Instructions := "\nAnswer the user's question in character, being helpful and professional. Use information from the company documents when available. If documents provide specific procedures or requirements, reference them. Keep responses concise (2-3 paragraphs max)."

  /** `if (documentContext)`: `null` and the empty string are both false. */
  predicate Truthy(context: Option<string>) {
    context.Some? && context.value != ""
  }

  /** `systemPrompt` as built before the request. */
  function SystemPrompt(p: Profile, context: Option<string>): string {
    Persona(p) + (if Truthy(context) then "\n" + context.value else "") + Instructions
  }

  lemma {:induction false} Frame(a: string, m: string, z: string)
    ensures (a + m + z)[..|a|] == a
    ensures (a + m + z)[|a| + |m|..] == z
    ensures (a + m + z)[|a|..|a| + |m|] == m
  {
  }

  /** Some text, then the context after a newline when it is truthy,
      then more text. */
  lemma {:induction false} AroundContext(a: string, context: Option<string>, z: string)
    ensures var s := a + (if Truthy(context) then "\n" + context.value else "") + z;
            && |a| + |z| <= |s|
            && s[..|a|] == a
            && s[|s| - |z|..] == z
            && (Truthy(context) ==> |s| == |a| + 1 + |context.value| + |z| && s[|a| + 1..|a| + 1 + |context.value|] == context.value)
            && (!Truthy(context) ==> s == a + z)
  {
    var middle := if Truthy(context) then "\n" + context.value else "";
    Frame(a, middle, z);
    if Truthy(context) {
      assert middle[1..] == context.value;
    } else {
      assert middle == [];
      assert a + middle == a;
    }
  }

  /** The prompt opens with the profile and closes with the instructions
      whatever the context; a context is inserted between them, after a
      newline, exactly when it is a non-empty string, and a missing or
      empty context gives the same prompt. */
  lemma {:induction false} PromptLayout(p: Profile, context: Option<string>)
    ensures var s := SystemPrompt(p, context);
            && |Persona(p)| + |Instructions| <= |s|
            && s[..|Persona(p)|] == Persona(p)
            && s[|s| - |Instructions|..] == Instructions
            && (Truthy(context) ==>
                  |s| == |Persona(p)| + 1 + |context.value| + |Instructions|
                  && s[|Persona(p)| + 1..|Persona(p)| + 1 + |context.value|] == context.value)
            && (!Truthy(context) ==> s == SystemPrompt(p, None) && |s| == |Persona(p)| + |Instructions|)
  {
    AroundContext(Persona(p), context, Instructions);
    AroundContext(Persona(p), None, Instructions);
  }

  /** A character without governance rules gets the word `undefined` in
      their place. */
  lemma {:induction false} MissingGovernance(p: Profile)
    requires p.governance == None
    ensures Persona(p) == Persona(p.(governance := Some("undefined")))
  {
  }
}
