/**
  The class `UnitTestFlow` of `src/unittest_flow.py`: one object per generation, holding
  the function under test and the generation settings, and remembering the last pytest
  result.

  The language-model service is not modelled: its replies are method inputs. Only the
  reply with the test code and the reply with the correction influence what is
  written; the explanation and the plan are requested and then never used, because
  the plan and test-code requests are built from the object's fields alone. Pytest's
  result is an input as well.
*/
module TestFlow {
  import opened Wrappers
  import opened PyStr
  import Disk
  import Synthesis

  /** What `subprocess.run` returns: the process's return code and its captured
      standard output. */
  datatype CompletedProcess = CompletedProcess(returncode: int, stdout: string)

  class UnitTestFlow {
    var functionToTest: string
    var functionFilename: string
    var explainModel: string
    var planModel: string
    var executeModel: string
    var temperature: real
    var unitTestPackage: string
    var approxMinCasesToCover: int
    var rerunsIfFail: int
    var stream: bool
    var pytestResult: Option<CompletedProcess>

    /** `__init__` with its defaults spelled out by the caller; no pytest result yet. */
    constructor (functionToTest: string, functionFilename: string, explainModel: string, planModel: string,
                 executeModel: string, temperature: real, unitTestPackage: string,
                 approxMinCasesToCover: int, rerunsIfFail: int, stream: bool)
      ensures this.functionToTest == functionToTest && this.functionFilename == functionFilename
      ensures this.explainModel == explainModel && this.planModel == planModel && this.executeModel == executeModel
      ensures this.temperature == temperature && this.unitTestPackage == unitTestPackage
      ensures this.approxMinCasesToCover == approxMinCasesToCover && this.rerunsIfFail == rerunsIfFail
      ensures this.stream == stream
      ensures pytestResult == None
    {
      this.functionToTest := functionToTest;
      this.functionFilename := functionFilename;
      this.explainModel := explainModel;
      this.planModel := planModel;
      this.executeModel := executeModel;
      this.temperature := temperature;
      this.unitTestPackage := unitTestPackage;
      this.approxMinCasesToCover := approxMinCasesToCover;
      this.rerunsIfFail := rerunsIfFail;
      this.stream := stream;
      pytestResult := None;
    }

    /** Where `update_function_in_file` writes: "src/" + the file name, under the
        working directory. */
    function SourcePath(): (p: string)
      reads this
      ensures |p| == 4 + |functionFilename| && p[..4] == "src/" && p[4..] == functionFilename
    {
      "src/" + functionFilename
    }

    /** The import line `_build_execute_user_message` puts into the test-code request. */
    function ImportLine(): string
      reads this
    {
      Synthesis.ImportLine(functionFilename, functionToTest)
    }

    /** `run_pytest`: remembers pytest's result and returns it. */
    method RunPytest(testFile: string, result: CompletedProcess) returns (r: CompletedProcess)
      modifies this`pytestResult
      ensures r == result && pytestResult == Some(result)
      ensures functionToTest == old(functionToTest) && functionFilename == old(functionFilename)
    {
      pytestResult := Some(result);
      r := result;
    }

    /** `update_function_in_file`: the extraction is disabled, so the text is written
        unchanged and the `except IndexError` branch cannot be reached. */
    method UpdateFunctionInFile(disk: Disk.FileStore, functionCode: string)
      modifies disk
      ensures disk.files == old(disk.files)[SourcePath() := functionCode]
    {
      disk.Write(SourcePath(), functionCode);
    }

    /** `correct_function`: the service's whole reply replaces the source file. */
    method CorrectFunction(disk: Disk.FileStore, reply: string)
      modifies disk
      ensures disk.files == old(disk.files)[SourcePath() := reply]
    {
      UpdateFunctionInFile(disk, reply);
    }

    /** `write_tests`: the first fenced block of the reply replaces the test module;
        a reply without an opening marker raises IndexError before anything is
        written. */
    method WriteTests(disk: Disk.FileStore, code: string) returns (r: Result<string, Synthesis.Error>)
      modifies disk
      ensures r.Err? <==> !Contains(code, Synthesis.PyFence)
      ensures r.Err? ==> disk.files == old(disk.files)
      ensures r.Ok? ==>
        && r.value == Disk.TestModulePath
        && disk.files == old(disk.files)[Disk.TestModulePath := Synthesis.ExtractFence(code).value]
    {
      var block := Synthesis.ExtractFence(code);
      if block.Err? {
        return Err(block.error);
      }
      disk.Write(Disk.TestModulePath, block.value);
      r := Ok(Disk.TestModulePath);
    }

    /** `run`: write the tests from the test-code reply, run pytest, and correct the
        function exactly when pytest failed and printed something; the test module's
        path is returned on every branch that does not raise. */
    method Run(disk: Disk.FileStore, testCodeReply: string, result: CompletedProcess, correctionReply: string)
      returns (r: Result<string, Synthesis.Error>)
      modifies this`pytestResult, disk
      ensures functionToTest == old(functionToTest) && functionFilename == old(functionFilename)
      ensures r.Err? <==> !Contains(testCodeReply, Synthesis.PyFence)
      ensures r.Err? ==> disk.files == old(disk.files) && pytestResult == old(pytestResult)
      ensures r.Ok? ==> r.value == Disk.TestModulePath && pytestResult == Some(result)
      ensures r.Ok? ==>
        var written := old(disk.files)[Disk.TestModulePath := Synthesis.ExtractFence(testCodeReply).value];
        disk.files == if result.returncode != 0 && result.stdout != "" then written[SourcePath() := correctionReply] else written
    {
      var testCodePath := WriteTests(disk, testCodeReply);
      if testCodePath.Err? {
        return testCodePath;
      }
      var testResult := RunPytest(testCodePath.value, result);
      if testResult.returncode != 0 {
        if testResult.stdout != "" {
          CorrectFunction(disk, correctionReply);
        }
      }
      r := testCodePath;
    }
  }

  /** For a file `dir/stem.py` and a function `name(...)`, the import line of the
      test-code request is `from src.stem import name`, with `name` stripped. */
  lemma ImportLineOfFlow(flow: UnitTestFlow, dir: string, stem: string, name: string, rest: string)
    requires flow.functionFilename == dir + "/" + stem + ".py" && flow.functionToTest == name + "(" + rest
    requires !Contains(stem, "/") && !Contains(stem, ".py") && !Contains(name, "(")
    ensures flow.ImportLine() == "from src." + stem + " import " + Strip(name)
  {
    Synthesis.ImportLineOf(dir, stem, name, rest);
  }

  /** The file `run` writes for the tests is never the source file it corrects: the
      corrected file lies under "src/", the tests under "tests/". */
  lemma TestsAndSourceAreDistinct(flow: UnitTestFlow)
    ensures flow.SourcePath() != Disk.TestModulePath
  {
    assert flow.SourcePath()[..4] == "src/";
    assert Disk.TestModulePath[..4] == "test";
  }
}
