/** The per-run state of the spreadsheet compiler (EditorUtils): the sheets
    read so far, the workbook files whose class was already generated, and
    the two output folders, class files by class name and JSON payloads by
    payload name. */
module ConfigExport {
  import opened Text
  import opened ExcelSheets
  import opened SheetNames
  import opened ConfigClass
  import opened ConfigJson

  /** EditorUtils.ExcelConfig */
  datatype ExcelConfig = ExcelConfig(className: string, jsonName: string, properties: seq<Property>, sheet: Sheet)

  /** How GenerateConfigJson ends: the payload is written (true), the
      record type is missing (false), or reading a cell throws. */
  datatype JsonOutcome = Generated | TypeMissing | Threw

  /** The class folder after GenerateConfigClass: an existing file is kept
      as it is, otherwise the class text is written. */
  function WithClass(files: map<string, seq<string>>, props: seq<Property>, configName: string)
    : (r: map<string, seq<string>>)
    ensures configName in r
    ensures r.Keys == files.Keys + {configName}
  {
    if configName in files then files else files[configName := ClassText(props, configName)]
  }

  /** Generating a class never overwrites a file: every existing file keeps
      its text, and a new one holds the class text. */
  lemma WithClassNeverOverwrites(files: map<string, seq<string>>, props: seq<Property>, configName: string)
    ensures forall k :: k in files ==> WithClass(files, props, configName)[k] == files[k]
    ensures configName !in files ==> WithClass(files, props, configName)[configName] == ClassText(props, configName)
  {
  }

  class Exporter<R> {
    var excelConfigs: seq<ExcelConfig>
    var generatedClassFiles: set<string>
    var classFiles: map<string, seq<string>>
    var jsonFiles: map<string, map<string, R>>

    /** A run starts with no sheets read and no class generated; the
        folders hold what is left in them. */
    constructor (classFolder: map<string, seq<string>>, jsonFolder: map<string, map<string, R>>)
      ensures excelConfigs == [] && generatedClassFiles == {}
      ensures classFiles == classFolder && jsonFiles == jsonFolder
    {
      excelConfigs := [];
      generatedClassFiles := {};
      classFiles := classFolder;
      jsonFiles := jsonFolder;
    }

    /** EditorUtils.GenerateConfigClass */
    method GenerateConfigClass(properties: seq<Property>, configName: string)
      modifies this
      ensures classFiles == WithClass(old(classFiles), properties, configName)
      ensures excelConfigs == old(excelConfigs) && generatedClassFiles == old(generatedClassFiles)
      ensures jsonFiles == old(jsonFiles)
    {
      if configName in classFiles {
        return;
      }
      var lines := BuildClassText(properties, configName);
      classFiles := classFiles[configName := lines];
    }

    /** EditorUtils.ReadExcelSheets for a sheet of workbook `fileName`: a
        header error (an exception in the source) changes nothing;
        otherwise the class is generated once per workbook file name and
        the sheet is queued under its payload name. */
    method ReadExcelSheets(sheet: Sheet, fileName: string, isLetter: char -> bool, isDigit: char -> bool)
      returns (r: Result<seq<Property>>)
      modifies this
      ensures r == ReadHeader(sheet)
      ensures r.Err? ==>
        && excelConfigs == old(excelConfigs) && generatedClassFiles == old(generatedClassFiles)
        && classFiles == old(classFiles) && jsonFiles == old(jsonFiles)
      ensures r.Ok? ==>
        && excelConfigs == old(excelConfigs)
             + [ExcelConfig(ClassName(fileName), JsonName(fileName, Sanitize(sheet.name, isLetter, isDigit)), r.value, sheet)]
        && generatedClassFiles == old(generatedClassFiles) + {fileName}
        && classFiles == (if fileName in old(generatedClassFiles) then old(classFiles)
                          else WithClass(old(classFiles), r.value, ClassName(fileName)))
        && jsonFiles == old(jsonFiles)
    {
      r := ReadProperties(sheet);
      if r.Err? {
        return;
      }
      var properties := r.value;
      var className := fileName + "Config";
      if fileName !in generatedClassFiles {
        GenerateConfigClass(properties, className);
        generatedClassFiles := generatedClassFiles + {fileName};
      }
      var sheetName := SanitizeSheetName(sheet.name, isLetter, isDigit);
      var jsonConfigName := className + "_" + sheetName;
      excelConfigs := excelConfigs + [ExcelConfig(className, jsonConfigName, properties, sheet)];
    }

    /** EditorUtils.GenerateConfigJson: without the record type (not yet
        compiled) nothing is written and the result is false; a cell read
        that throws ends the export with nothing written; otherwise the
        payload file holds the dictionary of the sheet's rows. */
    method GenerateConfigJson(config: ExcelConfig, typeFound: bool,
                              deserialize: string -> Option<R>, idOf: R -> string)
      returns (outcome: JsonOutcome)
      modifies this
      ensures outcome == TypeMissing <==> !typeFound
      ensures outcome == Threw <==> typeFound && ExportThrows(config.sheet, config.properties)
      ensures jsonFiles == if outcome == Generated then old(jsonFiles)[config.jsonName := Export(config.sheet, config.properties, deserialize, idOf)]
                           else old(jsonFiles)
      ensures excelConfigs == old(excelConfigs) && generatedClassFiles == old(generatedClassFiles)
      ensures classFiles == old(classFiles)
    {
      if !typeFound {
        return TypeMissing;
      }
      var rawData := CollectRows(config.sheet.rows, RowTexts(config.properties), RowThrowing(config.properties),
                                 deserialize, idOf);
      if rawData.None? {
        return Threw;
      }
      jsonFiles := jsonFiles[config.jsonName := rawData.value];
      return Generated;
    }
  }
}
