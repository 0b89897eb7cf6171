/**
 Files in the contexts of a search tree, in shadow mode: one fixed base text, one patch and lazily
 filled caches per file (`ContextFile`), cloned whenever a node gets a child (`FileContext.clone`).
 */
module ContextFiles {
  import opened Prelude
  import opened Text
  import opened HunkReplay
  import opened PatchRoundTrip

  /** The repository behind the contexts; shadow mode never writes to it. */
  datatype Repository = Repository(texts: map<string, string>) {
    /** A missing file counts as empty. */
    function Original(path: string): string {
      if path in texts then texts[path] else ""
    }
  }

  // ---------- patches as the diff library makes them ----------

  type Differ = (seq<string>, seq<string>) -> seq<Hunk>

  /** What is relied on: the hunks are a diff, and context keeps insertions anchored. */
  ghost predicate ValidDiffer(differ: Differ) {
    forall a, b :: a != b ==> IsDiff(a, 0, b, 0, differ(a, b)) && Anchored(differ(a, b))
  }

  /** The contract can be met: the whole-file replacement meets it. */
  lemma ValidDifferExists() returns (differ: Differ)
    ensures ValidDiffer(differ)
  {
    differ := (a, b) => [Hunk(if a == [] then 0 else 1, Removal(a) + Insertion(b))];
    forall a, b ensures IsDiff(a, 0, b, 0, differ(a, b)) && Anchored(differ(a, b)) {
      ReplacementSides(a, b);
      assert differ(a, b)[1..] == [];
      assert a[0..|a|] == a && b[0..|b|] == b && a[|a|..] == [] && b[|b|..] == [];
    }
  }

  /** No hunks stand for the empty patch text. */
  function GeneratePatch(differ: Differ, base: string, updated: string): seq<Hunk> {
    if base == updated || Lines(base) == Lines(updated) then [] else differ(Lines(base), Lines(updated))
  }

  /** The text a file shows when nothing is cached. */
  function Patched(base: string, patch: seq<Hunk>): Result<string, ReplayError> {
    if patch == [] then Ok(base) else ReplayText(base, patch)
  }

  lemma EmptyDiff(a: seq<string>, b: seq<string>)
    ensures IsDiff(a, 0, b, 0, []) ==> a == b
  {
    assert a[0..] == a && b[0..] == b;
  }

  /** An edit always leaves a patch that applies. */
  lemma EditApplies(differ: Differ, base: string, updated: string)
    requires ValidDiffer(differ)
    ensures Patched(base, GeneratePatch(differ, base, updated)).Ok?
  {
    if Lines(base) != Lines(updated) {
      RoundTripIff(base, updated, differ(Lines(base), Lines(updated)));
    }
  }

  /** The edited text and the base agree on the final line break; on a closed base the text must be closed. */
  ghost predicate EditFits(differ: Differ, base: string, updated: string) {
    FateFits(if Terminated(base) then Dropped
        else TailFate(|Lines(base)|, GeneratePatch(differ, base, updated)), updated)
  }

  /** The patch of an edit means the edited text exactly if that fits the base. */
  lemma EditMeansTextIff(differ: Differ, base: string, updated: string)
    requires ValidDiffer(differ)
    ensures Patched(base, GeneratePatch(differ, base, updated)) == Ok(updated) <==> EditFits(differ, base, updated)
  {
    if Lines(base) == Lines(updated) {
      if Terminated(updated) == Terminated(base) {
        SameText(base, updated);
      }
    } else {
      EmptyDiff(Lines(base), Lines(updated));
      RoundTripIff(base, updated, differ(Lines(base), Lines(updated)));
    }
  }

  /** On a closed base the texts that fit are the closed ones. */
  lemma ClosedFits(differ: Differ, base: string, updated: string)
    requires Terminated(base)
    ensures EditFits(differ, base, updated) <==> Terminated(updated)
  {
  }

  // ---------- one file ----------

  /** The text a file shows, and the one that its base and patch stand for. */
  datatype Entry = Entry(shown: string, stored: string)

  /** What an edit makes of a file: the text itself stays only with an empty patch, in the cache. */
  ghost function EditedEntry(differ: Differ, base: string, updated: string): Entry
    requires ValidDiffer(differ)
  {
    var patch := GeneratePatch(differ, base, updated);
    EditApplies(differ, base, updated);
    var stored := Patched(base, patch).value;
    Entry(if patch == [] then updated else stored, stored)
  }

  /** An edit that fits is shown and stored. An edit that does not is lost, or only shown until the file is copied. */
  lemma EditedEntryIff(differ: Differ, base: string, updated: string)
    requires ValidDiffer(differ)
    ensures EditedEntry(differ, base, updated) == Entry(updated, updated) <==> EditFits(differ, base, updated)
    ensures EditedEntry(differ, base, updated).shown != EditedEntry(differ, base, updated).stored <==>
            Lines(base) == Lines(updated) && base != updated
  {
    EditApplies(differ, base, updated);
    EditMeansTextIff(differ, base, updated);
    if Lines(base) != Lines(updated) {
      EmptyDiff(Lines(base), Lines(updated));
    }
  }

  class ContextFile {
    const filePath: string
    const repo: Repository
    /** The context the file was made for. */
    ghost const home: object
    var patch: seq<Hunk>
    var wasEdited: bool
    var cachedBaseContent: Option<string>
    var cachedContent: Option<string>

    /** A file as `load_files_from_dict` and `add_file` make it: nothing is cached. */
    constructor (repo: Repository, filePath: string, patch: seq<Hunk>, ghost home: object)
      ensures LoadedFrom(repo, filePath, patch) && !wasEdited && this.home == home
    {
      this.home := home;
      this.repo, this.filePath, this.patch := repo, filePath, patch;
      wasEdited, cachedBaseContent, cachedContent := false, None, None;
    }

    /** Just loaded: a path and a patch, and nothing cached. */
    ghost predicate LoadedFrom(repo: Repository, filePath: string, patch: seq<Hunk>)
      reads this
    {
      && this.repo == repo && this.filePath == filePath && this.patch == patch
      && cachedBaseContent == None && cachedContent == None
    }

    /** The base is the repository's, if it is cached. The patch, and what is cached as content, can be anything. */
    ghost predicate Based()
      reads this
    {
      cachedBaseContent.Some? ==> cachedBaseContent.value == repo.Original(filePath)
    }

    /** The patch applies to the base, as every patch made by an edit does. */
    ghost predicate Valid()
      reads this
    {
      Based() && Patched(repo.Original(filePath), patch).Ok?
    }

    /** The cache, if it is filled, comes before base and patch. */
    ghost function State(): Entry
      reads this
      requires Valid()
    {
      var stored := Patched(repo.Original(filePath), patch).value;
      Entry(if cachedContent.Some? then cachedContent.value else stored, stored)
    }

    /** The cache holds what base and patch stand for. */
    ghost predicate Coherent()
      reads this
    {
      Valid() && State().shown == State().stored
    }

    method GetBaseContent() returns (base: string)
      requires Based()
      modifies this`cachedBaseContent
      ensures Based() && base == repo.Original(filePath) && cachedBaseContent == Some(base)
      ensures base == if filePath in repo.texts then repo.texts[filePath] else ""
    {
      if cachedBaseContent.Some? {
        return cachedBaseContent.value;
      }
      base := repo.Original(filePath);
      cachedBaseContent := Some(base);
    }

    /** An error if nothing is cached and the patch does not apply; then nothing is cached either. */
    method Content() returns (r: Result<string, ReplayError>)
      requires Based()
      modifies this`cachedBaseContent, this`cachedContent
      ensures Based()
      ensures r == if old(cachedContent).Some? then Ok(old(cachedContent).value)
                   else Patched(repo.Original(filePath), patch)
      ensures cachedContent == if r.Ok? then Some(r.value) else None
      ensures old(Valid()) ==> Valid() && State() == old(State()) && r == Ok(State().shown)
    {
      if cachedContent.Some? {
        return Ok(cachedContent.value);
      }
      var base := GetBaseContent();
      if patch != [] {
        r := ApplyPatchedFile(base, patch);
        if r.Err? {
          return;
        }
      } else {
        r := Ok(base);
      }
      cachedContent := Some(r.value);
    }

    /** `set_patch`: any patch, whether it applies or not. */
    method SetPatch(patch: seq<Hunk>)
      requires Based()
      modifies this`patch, this`cachedContent, this`wasEdited
      ensures Based() && this.patch == patch && cachedContent == None && wasEdited
      ensures Patched(repo.Original(filePath), patch).Ok? <==> Valid()
      ensures Valid() ==> Coherent()
    {
      this.patch, cachedContent, wasEdited := patch, None, true;
    }

    /** Shadow mode. With an empty patch the cache keeps the edited text; otherwise it is cleared. */
    method ApplyChanges(differ: Differ, updated: string)
      requires Based() && ValidDiffer(differ)
      modifies this
      ensures Valid() && wasEdited && cachedBaseContent == Some(repo.Original(filePath))
      ensures patch == GeneratePatch(differ, repo.Original(filePath), updated)
      ensures cachedContent == if patch == [] then Some(updated) else None
      ensures State() == EditedEntry(differ, repo.Original(filePath), updated)
      ensures State() == Entry(updated, updated) <==> EditFits(differ, repo.Original(filePath), updated)
    {
      if cachedBaseContent == None && !wasEdited {
        var _ := GetBaseContent();
      }
      wasEdited := true;
      var base := GetBaseContent();
      patch := GeneratePatch(differ, base, updated);
      cachedContent := Some(updated);
      EditApplies(differ, base, updated);
      EditedEntryIff(differ, base, updated);
      if patch == [] {
        return;
      }
      cachedContent := None;
    }
  }
}
