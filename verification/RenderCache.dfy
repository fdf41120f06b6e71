/** The bounded memo in front of a stateful formula engine (renderMath.tsx `cacheSet`, `entryFor`,
    `toHtml`). */
module RenderCache {
  import opened EvidenceModels

  /** A set of author macros, known by the object's identity; None is the macro-less default. */
  type Macros = Option<nat>

  /** The engine: building a document may throw, converting may throw and may change the document. */
  datatype Engine<!Doc> = Engine(
    makeDoc: Macros -> Option<Doc>,
    convert: (Doc, string, bool) -> (Doc, Option<string>),
    defines: string -> bool,                    // what DEFINES_RE flags
    fallback: (string, bool) -> string)

  /** Only a flagged expression leaves a trace in the document. */
  ghost predicate OnlyDefinitionsPersist<Doc(!new)>(eng: Engine<Doc>) {
    forall d, latex, display :: !eng.defines(latex) ==> eng.convert(d, latex, display).0 == d
  }

  /** What the expression looks like on a document nothing was rendered on. */
  function Pristine<Doc>(eng: Engine<Doc>, macros: Macros, latex: string, display: bool): string {
    match eng.makeDoc(macros)
    case None => eng.fallback(latex, display)
    case Some(doc) =>
      match eng.convert(doc, latex, display).1
      case None => eng.fallback(latex, display)
      case Some(html) => html
  }

  /** The document after these expressions were rendered on it, one after the other. */
  function DocAfter<Doc>(eng: Engine<Doc>, macros: Macros, history: seq<(string, bool)>): Option<Doc> {
    if history == [] then eng.makeDoc(macros)
    else
      var n := |history| - 1;
      match DocAfter(eng, macros, history[..n])
      case None => None
      case Some(doc) => Some(eng.convert(doc, history[n].0, history[n].1).0)
  }

  /** What the expression looks like on that document. */
  function AnswerAfter<Doc>(eng: Engine<Doc>, macros: Macros, history: seq<(string, bool)>, latex: string,
                            display: bool): string
  {
    match DocAfter(eng, macros, history)
    case None => eng.fallback(latex, display)
    case Some(doc) =>
      match eng.convert(doc, latex, display).1
      case None => eng.fallback(latex, display)
      case Some(html) => html
  }

  /** With no definition before it, it looks as on a fresh document. */
  lemma {:induction false} AnswerIsPristine<Doc(!new)>(eng: Engine<Doc>, macros: Macros, history: seq<(string, bool)>,
                                                       latex: string, display: bool)
    requires OnlyDefinitionsPersist(eng) && forall i | 0 <= i < |history| :: !eng.defines(history[i].0)
    ensures DocAfter(eng, macros, history) == eng.makeDoc(macros)
    ensures AnswerAfter(eng, macros, history, latex, display) == Pristine(eng, macros, latex, display)
  {
    if history != [] {
      var n := |history| - 1;
      AnswerIsPristine(eng, macros, history[..n], latex, display);
      var (last, mode) := history[n];
      assert !eng.defines(history[n].0);
      match eng.makeDoc(macros)
      case None =>
      case Some(doc) => assert eng.convert(doc, last, mode).0 == doc;
    }
  }

  lemma DocAfterNext<Doc>(eng: Engine<Doc>, macros: Macros, history: seq<(string, bool)>, latex: string, display: bool)
    ensures DocAfter(eng, macros, history + [(latex, display)]) ==
      match DocAfter(eng, macros, history)
      case None => None
      case Some(doc) => Some(eng.convert(doc, latex, display).0)
  {
    assert (history + [(latex, display)])[..|history|] == history;
  }

  const MAX_CACHE := 800

  function CacheKey(latex: string, display: bool): string {
    (if display then "d:" else "i:") + latex
  }

  lemma KeysAreDistinct(l1: string, d1: bool, l2: string, d2: bool)
    requires CacheKey(l1, d1) == CacheKey(l2, d2)
    ensures l1 == l2 && d1 == d2
  {
    assert CacheKey(l1, d1)[0] == CacheKey(l2, d2)[0];
    assert CacheKey(l1, d1)[2..] == l1 && CacheKey(l2, d2)[2..] == l2;
  }

  ghost predicate Distinct(keys: seq<string>) {
    forall i, j | 0 <= i < j < |keys| :: keys[i] != keys[j]
  }

  lemma FirstGone(keys: seq<string>)
    requires keys != [] && Distinct(keys)
    ensures Distinct(keys[1..]) && forall k :: k in keys[1..] <==> k in keys && k != keys[0]
  {
    forall k | k in keys && k != keys[0] ensures k in keys[1..] {
      var i :| 0 <= i < |keys| && keys[i] == k;
      assert keys[1..][i - 1] == k;
    }
  }

  class MacroEntry<Doc(!new)> {
    const macros: Macros
    var doc: Option<Doc>
    var keys: seq<string>                 // insertion order of the Map
    var cache: map<string, string>
    ghost var clean: bool                 // no flagged expression was rendered on `doc`
    ghost var history: seq<(string, bool)>   // what was rendered on `doc`, in order

    constructor (macros: Macros)
      ensures this.macros == macros && doc == None && keys == [] && cache == map[] && clean && history == []
    {
      this.macros, doc, keys, cache, clean, history := macros, None, [], map[], true, [];
    }

    ghost predicate Bounded()
      reads this
    {
      && |keys| <= MAX_CACHE && Distinct(keys)
      && forall k :: k in keys <==> k in cache
    }

    ghost predicate Transparent(eng: Engine<Doc>)
      reads this
    {
      && (doc.Some? ==> eng.makeDoc(macros) == doc)
      && forall latex, display :: CacheKey(latex, display) in cache ==>
           cache[CacheKey(latex, display)] == Pristine(eng, macros, latex, display)
    }

    /** The document is what rendering its history made of it. */
    ghost predicate Kept(eng: Engine<Doc>)
      reads this
    {
      if doc.None? then history == [] else doc == DocAfter(eng, macros, history)
    }

    ghost predicate Valid(eng: Engine<Doc>)
      reads this
    {
      Bounded() && Kept(eng) && (clean ==> Transparent(eng)) && (macros.None? ==> clean)
    }

    /** The expressions that the next one is rendered after. */
    ghost function Before(eng: Engine<Doc>, latex: string): seq<(string, bool)>
      reads this
    {
      if macros.None? && eng.defines(latex) then [] else history
    }

    /** Evicts the oldest entry when full, even to set a key that is there; one that stays keeps its place. */
    method CacheSet(key: string, value: string)
      requires Bounded()
      modifies this`keys, this`cache
      ensures Bounded() && |keys| <= 800
      ensures var left := if old(|keys|) >= 800 then old(keys)[1..] else old(keys);
        keys == if key in left then left else left + [key]
      ensures key in cache && cache[key] == value
      ensures forall k | k in cache && k != key :: k in old(cache) && cache[k] == old(cache)[k]
    {
      if |keys| >= MAX_CACHE {
        FirstGone(keys);
        var oldest := keys[0];
        cache := cache - {oldest};
        keys := keys[1..];
      }
      if key !in cache {
        keys := keys + [key];
      }
      cache := cache[key := value];
    }

    /** The rendering itself: flagged expressions of the shared entry get a document of their own. */
    method Render(eng: Engine<Doc>, latex: string, display: bool) returns (html: string)
      requires Valid(eng) && OnlyDefinitionsPersist(eng)
      modifies this`doc, this`clean, this`history
      ensures html == AnswerAfter(eng, macros, old(Before(eng, latex)), latex, display)
      ensures history == old(history) ||
        (!(macros.None? && eng.defines(latex)) && history == old(history) + [(latex, display)])
      ensures !(macros.None? && eng.defines(latex)) && eng.makeDoc(macros).Some? ==>
        history == old(history) + [(latex, display)]
      ensures Valid(eng) && clean == (old(clean) && (macros.None? || !eng.defines(latex)))
      ensures old(clean) ==> html == Pristine(eng, macros, latex, display)
    {
      var needsIsolation := macros.None? && eng.defines(latex);
      var work: Option<Doc>;
      if needsIsolation {
        work := eng.makeDoc(macros);
      } else {
        if doc.None? {
          doc := eng.makeDoc(macros);
        }
        work := doc;
      }
      if work.None? {
        html := eng.fallback(latex, display);
      } else {
        var (after, node) := eng.convert(work.value, latex, display);
        DocAfterNext(eng, macros, history, latex, display);
        html := if node.Some? then node.value else eng.fallback(latex, display);
        if !needsIsolation {
          doc := Some(after);
          history := history + [(latex, display)];
        }
      }
      clean := clean && (macros.None? || !eng.defines(latex));
    }

    method ToHtml(eng: Engine<Doc>, latex: string, display: bool) returns (html: string)
      requires Valid(eng) && OnlyDefinitionsPersist(eng)
      modifies this
      ensures Valid(eng)
      ensures old(clean) ==> html == Pristine(eng, macros, latex, display)
      ensures macros.None? || (old(clean) && !eng.defines(latex)) ==> clean
      ensures var key := CacheKey(latex, display);
        && key in cache && cache[key] == html
        && (key in old(cache) ==>
              && html == old(cache[key]) && keys == old(keys) && cache == old(cache) && doc == old(doc)
              && history == old(history))
        && (key !in old(cache) ==>
              && html == AnswerAfter(eng, macros, old(Before(eng, latex)), latex, display)
              && keys == (if old(|keys|) >= 800 then old(keys)[1..] else old(keys)) + [key]
              && forall k | k in cache && k != key :: k in old(cache) && cache[k] == old(cache)[k])
    {
      var key := CacheKey(latex, display);
      if key in cache {
        return cache[key];
      }
      html := Render(eng, latex, display);
      CacheSet(key, html);
      forall l, d | clean && CacheKey(l, d) in cache
        ensures cache[CacheKey(l, d)] == Pristine(eng, macros, l, d)
      {
        if CacheKey(l, d) == key {
          KeysAreDistinct(l, d, latex, display);
        }
      }
    }
  }

  class Renderer<Doc(!new)> {
    const eng: Engine<Doc>
    const defaultEntry: MacroEntry<Doc>
    var byMacros: map<nat, MacroEntry<Doc>>

    constructor (eng: Engine<Doc>)
      requires OnlyDefinitionsPersist(eng)
      ensures this.eng == eng && Valid() && byMacros == map[] && fresh(defaultEntry)
    {
      this.eng := eng;
      defaultEntry := new MacroEntry<Doc>(None);
      byMacros := map[];
    }

    /** Every macro set has its own entry, none shared with the default. */
    ghost predicate Valid()
      reads this, defaultEntry, byMacros.Values
    {
      && OnlyDefinitionsPersist(eng)
      && defaultEntry.macros == None && defaultEntry.Valid(eng)
      && (forall m | m in byMacros :: byMacros[m].macros == Some(m) && byMacros[m].Valid(eng))
    }

    method EntryFor(macros: Macros) returns (entry: MacroEntry<Doc>)
      requires Valid()
      modifies this`byMacros
      ensures Valid() && entry.macros == macros
      ensures macros.None? ==> entry == defaultEntry && byMacros == old(byMacros)
      ensures macros.Some? ==> macros.value in byMacros && byMacros == old(byMacros)[macros.value := entry]
      ensures macros.Some? && macros.value in old(byMacros) ==> entry == old(byMacros)[macros.value]
      ensures macros.Some? && macros.value !in old(byMacros) ==> fresh(entry) && entry.clean
    {
      if macros.None? {
        return defaultEntry;
      }
      if macros.value !in byMacros {
        entry := new MacroEntry<Doc>(macros);
        byMacros := byMacros[macros.value := entry];
      } else {
        entry := byMacros[macros.value];
      }
    }

    /** Whatever was rendered before, with or without author macros: a macro-less answer is the one
        a fresh document gives, and so is an author-macro answer until that paper defines a command. */
    method ToHtml(latex: string, display: bool, macros: Macros) returns (html: string)
      requires Valid()
      modifies this`byMacros, defaultEntry, byMacros.Values
      ensures Valid()
      ensures macros.None? ==> html == Pristine(eng, None, latex, display)
      ensures macros.Some? && (macros.value in old(byMacros) ==> old(byMacros[macros.value].clean)) ==>
        html == Pristine(eng, macros, latex, display)
      ensures macros.Some? && macros.value in old(byMacros)
              && CacheKey(latex, display) !in old(byMacros[macros.value].cache) ==>
        html == AnswerAfter(eng, macros, old(byMacros[macros.value].history), latex, display)
      ensures macros.None? ==> byMacros == old(byMacros)
      ensures forall m | m in old(byMacros) && macros != Some(m) ::
        && m in byMacros && byMacros[m] == old(byMacros)[m]
        && byMacros[m].cache == old(byMacros[m].cache) && byMacros[m].doc == old(byMacros[m].doc)
        && byMacros[m].history == old(byMacros[m].history)
      ensures macros.Some? ==>
        defaultEntry.cache == old(defaultEntry.cache) && defaultEntry.doc == old(defaultEntry.doc)
    {
      var entry := EntryFor(macros);
      html := entry.ToHtml(eng, latex, display);
    }
  }
}
