/**
  The stylesheet cache of all/StyledPopup.py. `StyleSheetManager` keeps no state of its own:
  every call decodes `User/theme_styles.json` again, which maps a colour-scheme path to the
  compiled stylesheet and the MD5 digest of the scheme file it was compiled from.
  `ColorSchemeListener.on_activated_async` recompiles the scheme when its entry is missing or
  the digest has changed.

  The file is the field `file` (already decoded; None when it is missing or empty), the digest
  is the function `md5`, and the scheme's bytes and decoded nodes are parameters.
 */
module SchemeCache {
  import opened Wrappers
  import opened StyleSheet
  import TooltipCompiler

  type Bytes = seq<bv8>

  /** `{"content": ..., "hash": ...}` */
  datatype Entry = Entry(content: string, hash: string)

  /** `SchemeParser.run` on the decoded scheme: compile the nodes, then write the table out. */
  method ParseScheme(root: seq<TooltipCompiler.SchemeNode>) returns (r: Result<string, TooltipCompiler.CompileError>)
    ensures r == match TooltipCompiler.Compile(root)
                 case Err(e) => Err(e)
                 case Ok(t) => Ok(Serialize(t))
  {
    var cssStack := TooltipCompiler.ParsePlist(root);
    if cssStack.Err? {
      return Err(cssStack.error);
    }
    TooltipCompiler.CompileDistinct(root);
    var styleSheet := GenerateStyleSheetContent(cssStack.value);
    return Ok(styleSheet);
  }

  class StyleSheetManager {
    /** The decoded content of `theme_styles.json`; None when the file is missing or empty. */
    var file: Option<map<string, Entry>>
    /** `hashlib.md5(content).hexdigest()` */
    const md5: Bytes -> string

    constructor(file: Option<map<string, Entry>>, md5: Bytes -> string)
      ensures this.file == file && this.md5 == md5
    {
      this.file := file;
      this.md5 := md5;
    }

    /** `get_stylesheets`: the stored map, or the empty map when there is no file content. */
    function GetStylesheets(): (r: map<string, Entry>)
      reads this
      ensures file.None? ==> r == map[]
      ensures file.Some? ==> r == file.value
    {
      if file.Some? then file.value else map[]
    }

    /** `has_stylesheet` */
    predicate HasStylesheet(colorScheme: string)
      reads this
    {
      colorScheme in GetStylesheets()
    }

    /** `get_stylesheet`; None stands for the KeyError of a missing entry. */
    function GetStylesheet(colorScheme: string): (r: Option<Entry>)
      reads this
      ensures r.Some? <==> HasStylesheet(colorScheme)
      ensures r.Some? ==> r.value == GetStylesheets()[colorScheme]
    {
      if colorScheme in GetStylesheets() then Some(GetStylesheets()[colorScheme]) else None
    }

    /** `check_file_hash`: whether the stored digest is that of the scheme's current bytes.
        None stands for the KeyError of a missing entry. */
    function CheckFileHash(colorScheme: string, schemeBytes: Bytes): (r: Option<bool>)
      reads this
      ensures r.None? <==> !HasStylesheet(colorScheme)
      ensures r == Some(true)
        <==> HasStylesheet(colorScheme) && GetStylesheets()[colorScheme].hash == md5(schemeBytes)
    {
      match GetStylesheet(colorScheme)
      case None => None
      case Some(entry) => Some(md5(schemeBytes) == entry.hash)
    }

    /** The test of `on_activated_async`: `not has_stylesheet(cs) or not check_file_hash(cs)`.
        The hash is only checked for a scheme that has an entry. */
    predicate NeedsParse(colorScheme: string, schemeBytes: Bytes)
      reads this
    {
      !HasStylesheet(colorScheme) || !CheckFileHash(colorScheme, schemeBytes).value
    }

    /** `add_stylesheet`: read the file, set the scheme's entry, write the file back. */
    method AddStylesheet(colorScheme: string, schemeBytes: Bytes, content: string)
      modifies this
      ensures file == Some(old(GetStylesheets())[colorScheme := Entry(content, md5(schemeBytes))])
    {
      var styleSheets := GetStylesheets();
      var fileHash := md5(schemeBytes);
      styleSheets := styleSheets[colorScheme := Entry(content, fileHash)];
      file := Some(styleSheets);
    }
  }

  /** A stale or missing entry: the test is true exactly when no entry holds the current
      digest. */
  lemma NeedsParseCases(m: StyleSheetManager, colorScheme: string, schemeBytes: Bytes)
    ensures m.NeedsParse(colorScheme, schemeBytes)
      <==> (colorScheme !in m.GetStylesheets()
            || m.GetStylesheets()[colorScheme].hash != m.md5(schemeBytes))
  {
  }

  /** `ColorSchemeListener.on_activated_async` for a view showing `colorScheme`, whose
      scheme file holds `schemeBytes` and decodes to `root`. An error of the compiler
      propagates and leaves the file as it was. */
  method OnActivatedAsync(m: StyleSheetManager, colorScheme: string, schemeBytes: Bytes,
                          root: seq<TooltipCompiler.SchemeNode>)
    returns (r: Result<(), TooltipCompiler.CompileError>)
    modifies m
    ensures !old(m.NeedsParse(colorScheme, schemeBytes)) ==> r.Ok? && m.file == old(m.file)
    ensures old(m.NeedsParse(colorScheme, schemeBytes))
      ==> (r.Err? <==> TooltipCompiler.Compile(root).Err?)
    ensures r.Err? ==> m.file == old(m.file)
    ensures r.Ok? ==> m.HasStylesheet(colorScheme) && m.CheckFileHash(colorScheme, schemeBytes) == Some(true)
    ensures r.Ok? && old(m.NeedsParse(colorScheme, schemeBytes))
      ==> m.GetStylesheets() == old(m.GetStylesheets())[colorScheme :=
            Entry(Serialize(TooltipCompiler.Compile(root).value), m.md5(schemeBytes))]
  {
    if !m.HasStylesheet(colorScheme) || !m.CheckFileHash(colorScheme, schemeBytes).value {
      var styleSheet := ParseScheme(root);
      if styleSheet.Err? {
        return Err(styleSheet.error);
      }
      m.AddStylesheet(colorScheme, schemeBytes, styleSheet.value);
    }
    return Ok(());
  }
}
